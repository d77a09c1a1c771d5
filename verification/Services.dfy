/** The registry's service value and its constructor invariant. */
module Services {
  import opened Ordering
  import opened Text
  import opened Manifest
  import opened PortableStore

  const MAX_SERVICE_REVISION := 0x7FFF_FFFF_FFFF_FFFF

  datatype Backend = Sqlite | Postgresql

  /** The namespace is `svc_` and the hex text of a service id. */
  datatype Storage = Storage(backend: Backend, namespaceOf: Uuid)

  datatype Design = Seeded | Materialised

  datatype Status = Active | Suspended | Archived

  datatype Service = Service(id: Uuid, principal: Text, domainName: Text, domainClass: Text, purpose: Text,
                             createdAt: Time, updatedAt: Time, lastActivityAt: Time,
                             manifest: Option<Manifest>, schemaVersion: Option<int>, design: Design, status: Status,
                             revision: int, materialisedAt: Option<Time>, storage: Option<Storage>)

  /** `Service.__post_init__`. */
  ghost predicate ValidService(s: Service) {
    && s.createdAt <= s.updatedAt <= s.lastActivityAt
    && 1 <= s.revision <= MAX_SERVICE_REVISION
    && (s.manifest.None? <==> s.schemaVersion.None?)
    && (s.manifest.Some? ==> ValidManifest(s.manifest.value) && s.schemaVersion == Some(s.manifest.value.schemaVersion))
    && (s.materialisedAt.None? <==> s.storage.None?)
    && (s.materialisedAt.Some? ==> s.createdAt <= s.materialisedAt.value <= s.updatedAt)
    && (s.storage.Some? ==> s.storage.value.namespaceOf == s.id)
    && (s.design == Seeded ==> s.storage.None?)
    && (s.design == Materialised ==> s.manifest.Some? && s.storage.Some?)
  }
}
