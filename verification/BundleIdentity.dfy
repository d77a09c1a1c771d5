/** What a bundle's root identifies: the bytes before the trailer, whatever the limit. */
module BundleIdentity {
  import opened Ordering
  import opened Text
  import opened CanonicalJson
  import opened Bundle
  import opened Digests
  import opened BundleStream

  /** Everything but the trailer line. */
  function Body(lines: seq<Bytes>): Bytes {
    if lines == [] then [] else Flatten(lines[..|lines| - 1])
  }

  lemma {:induction false} AddedRoot(p: Platform, w: Writer, kind: Kind, payload: Raw)
    requires w.digests.Shaped() && WriterAdd(p, w, kind, payload).Some?
    ensures var (next, line) := WriterAdd(p, w, kind, payload).value;
            next.digests.root == w.digests.root + line && next.digests.Shaped()
  {
    hide EncodeFrame, DecodeLine;
  }

  lemma {:induction false} FinishedRoot(p: Platform, w: Writer)
    requires w.digests.Shaped() && WriterFinish(p, w).Some?
    ensures WriterFinish(p, w).value.1.root == p.sha256(w.digests.root)
  {
    hide EncodeTrailer, ValidTrailer, SectionsOf, ValidSummary;
  }

  lemma {:induction false} WrittenRootFrom(p: Platform, w: Writer, items: seq<Item>)
    requires w.digests.Shaped() && WriteFrom(p, w, items).Some?
    ensures var (lines, summary) := WriteFrom(p, w, items).value;
            lines != [] && summary.root == p.sha256(w.digests.root + Body(lines))
    decreases |items|
  {
    hide WriterAdd, WriterFinish;
    var (lines, summary) := WriteFrom(p, w, items).value;
    if items == [] {
      FinishedRoot(p, w);
      assert lines[..0] == [];
      assert w.digests.root + [] == w.digests.root;
    } else {
      AddedRoot(p, w, items[0].kind, items[0].payload);
      var (next, line) := WriterAdd(p, w, items[0].kind, items[0].payload).value;
      WrittenRootFrom(p, next, items[1..]);
      var more := WriteFrom(p, next, items[1..]).value.0;
      assert lines[..|lines| - 1] == [line] + more[..|more| - 1];
      assert lines[..|lines| - 1][1..] == more[..|more| - 1];
      Assoc(w.digests.root, line, Body(more));
    }
  }

  /** The root of a written bundle is the digest of all its lines before the trailer. */
  lemma {:induction false} WrittenRoot(p: Platform, limit: int, items: seq<Item>)
    requires WriteBundle(p, limit, items).Some?
    ensures WriteBundle(p, limit, items).value.0 != []
    ensures WriteBundle(p, limit, items).value.1.root == p.sha256(Body(WriteBundle(p, limit, items).value.0))
  {
    WrittenRootFrom(p, Writer(limit, EMPTY, None, false), items);
    var lines := WriteBundle(p, limit, items).value.0;
    assert [] + Body(lines) == Body(lines);
  }

  lemma {:induction false} AddAnyLimit(p: Platform, a: Writer, b: Writer, kind: Kind, payload: Raw)
    requires a.digests.Shaped() && b == a.(limit := b.limit)
    requires WriterAdd(p, a, kind, payload).Some? && WriterAdd(p, b, kind, payload).Some?
    ensures var x, y := WriterAdd(p, a, kind, payload).value, WriterAdd(p, b, kind, payload).value;
            x.1 == y.1 && y.0 == x.0.(limit := b.limit) && x.0.digests.Shaped()
  {
    hide EncodeFrame, DecodeLine, AddFrame;
  }

  lemma {:induction false} WriteAnyLimit(p: Platform, a: Writer, b: Writer, items: seq<Item>)
    requires a.digests.Shaped() && b == a.(limit := b.limit)
    requires WriteFrom(p, a, items).Some? && WriteFrom(p, b, items).Some?
    ensures WriteFrom(p, a, items) == WriteFrom(p, b, items)
    decreases |items|
  {
    hide WriterAdd, EncodeTrailer, TrailerOf, Summarise;
    if items != [] {
      AddAnyLimit(p, a, b, items[0].kind, items[0].payload);
      WriteAnyLimit(p, WriterAdd(p, a, items[0].kind, items[0].payload).value.0,
                    WriterAdd(p, b, items[0].kind, items[0].payload).value.0, items[1..]);
    }
  }

  /** A byte limit decides whether a bundle is written, never what is written. */
  lemma {:induction false} LimitIrrelevant(p: Platform, l: int, m: int, items: seq<Item>)
    requires WriteBundle(p, l, items).Some? && WriteBundle(p, m, items).Some?
    ensures WriteBundle(p, l, items) == WriteBundle(p, m, items)
  {
    WriteAnyLimit(p, Writer(l, EMPTY, None, false), Writer(m, EMPTY, None, false), items);
  }
}
