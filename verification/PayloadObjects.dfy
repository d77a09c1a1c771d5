/** Objects with a fixed vocabulary of names: how they are written, and how a decoder that
    demands exactly those names reads them back. */
module PayloadObjects {
  import opened Ordering
  import opened Text
  import opened Decimals
  import opened CanonicalJson
  import opened JsonRoundTrip
  import opened Bundle

  function Zip(names: seq<Text>, values: seq<Json>): (r: seq<Entry>)
    requires |names| == |values|
    ensures |r| == |names| && forall i :: 0 <= i < |r| ==> r[i] == Entry(names[i], values[i])
  {
    if names == [] then [] else [Entry(names[0], values[0])] + Zip(names[1..], values[1..])
  }

  /** Names without surrogates, in the strict order of canonical objects. */
  ghost predicate Vocabulary(names: seq<Text>) {
    && (forall i :: 0 <= i < |names| ==> Scalar(names[i]))
    && forall i, j :: 0 <= i < j < |names| ==> Less(Utf16Key(names[i]), Utf16Key(names[j]))
  }

  /** `_exact`, then the value under every name. */
  function Fields(v: Json, names: seq<Text>): (r: Option<seq<Json>>)
    ensures r.Some? ==> |r.value| == |names|
  {
    if !v.Obj? || Names(v.entries) != (set n | n in names) then None
    else Some(seq(|names|, i requires 0 <= i < |names| => Lookup(v.entries, names[i]).GetOr(Null)))
  }

  function Closing(names: seq<Text>, values: seq<Json>): Json
    requires |names| == |values|
  {
    Obj(Zip(names, values))
  }

  lemma {:induction false} ZipSorted(names: seq<Text>, values: seq<Json>)
    requires Vocabulary(names) && |names| == |values|
    ensures StrictlySorted(EntryKey, Zip(names, values))
  {
  }

  lemma {:induction false} ZipCanon(names: seq<Text>, values: seq<Json>)
    requires |names| == |values|
    ensures CanonEntries(Zip(names, values)) == Zip(names, CanonItems(values))
  {
    if names != [] {
      ZipCanon(names[1..], values[1..]);
      assert CanonItems(values)[1..] == CanonItems(values[1..]);
      assert Zip(names, values)[1..] == Zip(names[1..], values[1..]);
    }
  }

  /** Reading the names of a written object gives back its values. */
  lemma {:induction false} ZipFields(names: seq<Text>, values: seq<Json>)
    requires Vocabulary(names) && |names| == |values|
    ensures Fields(Closing(names, values), names) == Some(values)
  {
    var es := Zip(names, values);
    ZipSorted(names, values);
    assert Names(es) == set n | n in names by {
      forall x ensures x in Names(es) <==> x in (set n | n in names) {
        if x in names {
          var i :| 0 <= i < |names| && names[i] == x;
          assert es[i] in es;
        }
        if x in Names(es) {
          var e :| e in es && e.name == x;
          var i :| 0 <= i < |es| && es[i] == e;
          assert names[i] in names;
        }
      }
    }
    forall i | 0 <= i < |names| ensures Lookup(es, names[i]) == Some(values[i]) {
      LookupMember(es, i);
    }
    assert Fields(Closing(names, values), names).value == values;
  }

  // ----- freezing an orderly value -----

  /** Floats are binary64 values and every object is in strict key order. */
  ghost predicate Orderly(near: Rounding, v: Json)
    decreases v
  {
    match v
    case Float(d) => near(d) == Some(d)
    case Arr(items) => OrderlyItems(near, items)
    case Obj(entries) => OrderlyEntries(near, entries) && StrictlySorted(EntryKey, entries)
    case _ => true
  }

  ghost predicate OrderlyItems(near: Rounding, items: seq<Json>)
    decreases items
  {
    items == [] || (Orderly(near, items[0]) && OrderlyItems(near, items[1..]))
  }

  ghost predicate OrderlyEntries(near: Rounding, entries: seq<Entry>)
    decreases entries
  {
    entries == [] || (Orderly(near, entries[0].value) && OrderlyEntries(near, entries[1..]))
  }

  /** An orderly value that can be frozen is sound, hence its own frozen form. */
  lemma {:induction false} FrozenIsSound(near: Rounding, v: Json, depth: nat)
    requires Orderly(near, v) && Freeze(Thaw(v), depth).Some? && depth <= MAX_JSON_DEPTH
    ensures Sound(near, v)
    decreases v
  {
    match v
    case Arr(items) => FrozenItemsSound(near, items, depth + 1);
    case Obj(entries) => FrozenEntriesSound(near, entries, depth + 1);
    case _ =>
  }

  lemma {:induction false} FrozenItemsSound(near: Rounding, items: seq<Json>, depth: nat)
    requires OrderlyItems(near, items) && FreezeItems(ThawItems(items), depth).Some? && depth <= MAX_JSON_DEPTH
    ensures SoundItems(near, items)
    decreases items
  {
    if items != [] {
      assert ThawItems(items)[1..] == ThawItems(items[1..]);
      FrozenIsSound(near, items[0], depth);
      FrozenItemsSound(near, items[1..], depth);
    }
  }

  lemma {:induction false} FrozenEntriesSound(near: Rounding, entries: seq<Entry>, depth: nat)
    requires OrderlyEntries(near, entries) && FreezePairs(ThawEntries(entries), depth).Some? && depth <= MAX_JSON_DEPTH
    ensures SoundEntries(near, entries)
    decreases entries
  {
    if entries != [] {
      assert ThawEntries(entries)[1..] == ThawEntries(entries[1..]);
      FrozenIsSound(near, entries[0].value, depth);
      FrozenEntriesSound(near, entries[1..], depth);
    }
  }

  lemma {:induction false} ZipOrderly(near: Rounding, names: seq<Text>, values: seq<Json>)
    requires |names| == |values| && forall i :: 0 <= i < |values| ==> Orderly(near, values[i])
    ensures OrderlyEntries(near, Zip(names, values))
  {
    if names != [] {
      ZipOrderly(near, names[1..], values[1..]);
      assert Zip(names, values)[1..] == Zip(names[1..], values[1..]);
    }
  }

  lemma {:induction false} OrderlyGenuine(near: Rounding, v: Json)
    requires Orderly(near, v)
    ensures Genuine(near, Thaw(v))
    decreases v
  {
    match v
    case Arr(items) => OrderlyItemsGenuine(near, items);
    case Obj(entries) => OrderlyEntriesGenuine(near, entries);
    case _ =>
  }

  lemma {:induction false} OrderlyItemsGenuine(near: Rounding, items: seq<Json>)
    requires OrderlyItems(near, items)
    ensures forall i :: 0 <= i < |items| ==> Genuine(near, ThawItems(items)[i])
    decreases items
  {
    if items != [] {
      OrderlyGenuine(near, items[0]);
      OrderlyItemsGenuine(near, items[1..]);
    }
  }

  lemma {:induction false} OrderlyEntriesGenuine(near: Rounding, entries: seq<Entry>)
    requires OrderlyEntries(near, entries)
    ensures forall i :: 0 <= i < |entries| ==> Genuine(near, ThawEntries(entries)[i].value)
    decreases entries
  {
    if entries != [] {
      OrderlyGenuine(near, entries[0].value);
      OrderlyEntriesGenuine(near, entries[1..]);
    }
  }

  /** A written payload, frozen by the writer and decoded by the reader, yields its values
      with whole floats as integers. */
  lemma {:induction false} PayloadReadBack(near: Rounding, names: seq<Text>, values: seq<Json>)
    requires Vocabulary(names) && |names| == |values| && forall i :: 0 <= i < |values| ==> Orderly(near, values[i])
    ensures Genuine(near, Thaw(Closing(names, values)))
    ensures Freeze(Thaw(Closing(names, values)), 0).Some? ==>
              && Freeze(Thaw(Closing(names, values)), 0) == Some(Closing(names, values))
              && Sound(near, Closing(names, values))
              && Fields(Canon(Closing(names, values)), names) == Some(CanonItems(values))
  {
    var v := Closing(names, values);
    ZipOrderly(near, names, values);
    ZipSorted(names, values);
    OrderlyGenuine(near, v);
    if Freeze(Thaw(v), 0).Some? {
      FrozenIsSound(near, v, 0);
      FreezeThaw(near, v, 0);
      ZipCanon(names, values);
      ZipFields(names, CanonItems(values));
    }
  }

  // ----- vocabularies -----

  predicate Plain(s: Text) {
    forall i :: 0 <= i < |s| ==> s[i] < 0xD800
  }

  lemma {:induction false} PlainKey(s: Text)
    requires Plain(s)
    ensures Utf16Key(s) == s && Scalar(s)
  {
    if s != [] {
      PlainKey(s[1..]);
    }
  }

  /** Two names that first differ at position `k`. */
  predicate Before(a: Text, b: Text, k: nat) {
    k < |a| && k < |b| && a[k] < b[k] && forall i :: 0 <= i < k ==> a[i] == b[i]
  }

  lemma {:induction false} BeforeLess(a: Text, b: Text, k: nat)
    requires Before(a, b, k)
    ensures Less(a, b)
  {
    if k > 0 {
      BeforeLess(a[1..], b[1..], k - 1);
    }
  }

  /** Plain names, each before the next one, are a vocabulary. */
  lemma {:induction false} Chained(names: seq<Text>, at: seq<nat>)
    requires |at| == |names| - 1 && (forall i :: 0 <= i < |names| ==> Plain(names[i]))
    requires forall i :: 0 <= i < |at| ==> Before(names[i], names[i + 1], at[i])
    ensures Vocabulary(names)
  {
    forall i | 0 <= i < |names| ensures Scalar(names[i]) && Utf16Key(names[i]) == names[i] {
      PlainKey(names[i]);
    }
    forall i, j | 0 <= i < j < |names| ensures Less(names[i], names[j]) {
      ChainLess(names, at, i, j);
    }
  }

  lemma {:induction false} ChainLess(names: seq<Text>, at: seq<nat>, i: nat, j: nat)
    requires |at| == |names| - 1 && i < j < |names|
    requires forall i :: 0 <= i < |at| ==> Before(names[i], names[i + 1], at[i])
    ensures Less(names[i], names[j])
    decreases j
  {
    BeforeLess(names[j - 1], names[j], at[j - 1]);
    if i < j - 1 {
      ChainLess(names, at, i, j - 1);
      LessTransitive(names[i], names[j - 1], names[j]);
    }
  }

  /** Two vocabularies, the first ending before the second begins. */
  lemma {:induction false} JoinNames(a: seq<Text>, b: seq<Text>, k: nat)
    requires Vocabulary(a) && Vocabulary(b) && a != [] && b != []
    requires Plain(a[|a| - 1]) && Plain(b[0]) && Before(a[|a| - 1], b[0], k)
    ensures Vocabulary(a + b)
  {
    PlainKey(a[|a| - 1]);
    PlainKey(b[0]);
    BeforeLess(a[|a| - 1], b[0], k);
    forall i, j | 0 <= i < |a| && 0 <= j < |b| ensures Less(Utf16Key(a[i]), Utf16Key(b[j])) {
      if i < |a| - 1 {
        LessTransitive(Utf16Key(a[i]), Utf16Key(a[|a| - 1]), Utf16Key(b[0]));
      }
      if j > 0 {
        LessTransitive(Utf16Key(a[i]), Utf16Key(b[0]), Utf16Key(b[j]));
      }
    }
  }
}
