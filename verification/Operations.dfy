/** Operational status changes and the write-admission fence of a service store. */
module Operations {
  import opened Ordering
  import opened PortableStore
  import opened Services
  import opened Payloads

  datatype OpKind = Suspend | Resume | Archive | Restore | Export | Purge | Import

  /** The kinds that change the operational status. */
  predicate Operational(k: OpKind) {
    k == Suspend || k == Resume || k == Archive || k == Restore
  }

  /** `deterministic_target_status`. */
  function TargetStatus(k: OpKind): Status
    requires Operational(k)
  {
    match k
    case Suspend => Suspended
    case Resume => Active
    case Archive => Archived
    case Restore => Suspended
  }

  /** The transition matrix. */
  predicate Allowed(k: OpKind, s: Status) {
    match k
    case Suspend => s == Active
    case Resume => s == Suspended
    case Archive => s == Active || s == Suspended
    case Restore => s == Archived
    case _ => false
  }

  /** `transition_target_status`; None is the unsupported transition. */
  function TransitionTarget(k: OpKind, s: Status): Option<Status> {
    if Operational(k) && Allowed(k, s) then Some(TargetStatus(k)) else None
  }

  /** `transition_fence`: compare, then flip the state and step the generation; None is the
      raised error at the last generation. */
  function TransitionFence(current: Fence, expected: Fence, open: bool): Option<Fence> {
    if current != expected || current.open == open then Some(current)
    else if current.generation == MAX_FENCE_GENERATION then None
    else Some(Fence(current.generation + 1, open))
  }

  // ----- a store over time -----

  /** What a store holds at one moment. */
  datatype Moment = Moment(fence: Fence, members: seq<Member>)

  /** One change by anyone: a write behind an open fence, a fence transition, or nothing. */
  ghost predicate Changes(a: Moment, b: Moment) {
    || b == a
    || (a.fence.open && b.fence == a.fence)
    || (b.members == a.members && exists expected, open :: TransitionFence(a.fence, expected, open) == Some(b.fence))
  }

  ghost predicate Timeline(h: seq<Moment>) {
    forall i :: 0 <= i < |h| - 1 ==> Changes(h[i], h[i + 1])
  }

  lemma {:induction false} GenerationRises(h: seq<Moment>, i: nat, j: nat)
    requires Timeline(h) && i <= j < |h|
    ensures h[i].fence.generation <= h[j].fence.generation
    ensures h[i].fence.generation == h[j].fence.generation ==> h[i].fence == h[j].fence
    decreases j
  {
    if i < j {
      GenerationRises(h, i, j - 1);
      assert Changes(h[j - 1], h[j]);
    }
  }

  /** While the same closed fence is read at both ends, nothing was written in between,
      whoever else was at work. */
  lemma {:induction false} ClosedFenceFreezes(h: seq<Moment>, i: nat, j: nat, k: nat)
    requires Timeline(h) && i <= j <= k < |h|
    requires h[i].fence == h[k].fence && !h[i].fence.open
    ensures h[j] == h[i]
    decreases j
  {
    GenerationRises(h, i, j);
    GenerationRises(h, j, k);
    if i < j {
      ClosedFenceFreezes(h, i, j - 1, k);
      assert Changes(h[j - 1], h[j]);
    }
  }
}
