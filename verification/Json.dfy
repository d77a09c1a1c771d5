/** The frozen JSON domain of portable bundles and its canonical text,
    the profile "aipcs-json-c14n-1". */
module CanonicalJson {
  import opened Ordering
  import opened Text
  import opened Decimals

  const MAX_JSON_DEPTH := 64
  const SIGNED_64_MIN := -0x8000_0000_0000_0000
  const SIGNED_64_MAX := 0x7FFF_FFFF_FFFF_FFFF

  const QUOTE: CodePoint := '"' as int
  const BACKSLASH: CodePoint := '\\' as int
  const COMMA: CodePoint := ',' as int
  const COLON: CodePoint := ':' as int
  const OPEN_LIST: CodePoint := '[' as int
  const CLOSE_LIST: CodePoint := ']' as int
  const OPEN_DICT: CodePoint := '{' as int
  const CLOSE_DICT: CodePoint := '}' as int

  type Shortest = d: Decimal | Normal(d) witness Decimal(false, [], 0)

  /** Rounding a decimal to binary64: the shortest decimal of the nearest finite value,
      or None where `float` overflows to infinity. */
  type Rounding = Decimal -> Option<Shortest>

  datatype FloatValue = Finite(d: Shortest) | NonFinite

  /** A Python value offered for freezing; a dict keeps its insertion order. */
  datatype Raw =
    | RNull
    | RBool(b: bool)
    | RInt(n: int)
    | RFloat(f: FloatValue)
    | RText(s: Text)
    | RList(items: seq<Raw>)
    | RDict(pairs: seq<Pair>)
    | ROther

  datatype Pair = Pair(name: Text, value: Raw)

  /** A detached, recursively immutable JSON value. */
  datatype Json =
    | Null
    | Bool(b: bool)
    | Int(n: int)
    | Float(d: Shortest)
    | Str(s: Text)
    | Arr(items: seq<Json>)
    | Obj(entries: seq<Entry>)

  datatype Entry = Entry(name: Text, value: Json)

  function EntryKey(e: Entry): Key {
    Utf16Key(e.name)
  }

  predicate Signed64(n: int) {
    SIGNED_64_MIN <= n <= SIGNED_64_MAX
  }

  // ----- freezing -----

  function Freeze(value: Raw, depth: nat): Option<Json>
    decreases value
  {
    match value
    case RNull => Some(Null)
    case RBool(b) => Some(Bool(b))
    case RInt(n) => if Signed64(n) then Some(Int(n)) else None
    case RFloat(Finite(d)) => Some(Float(d))
    case RFloat(NonFinite) => None
    case RText(s) => if Scalar(s) then Some(Str(s)) else None
    case RList(items) =>
      if depth + 1 > MAX_JSON_DEPTH then None
      else (match FreezeItems(items, depth + 1)
            case None => None
            case Some(frozen) => Some(Arr(frozen)))
    case RDict(pairs) =>
      if depth + 1 > MAX_JSON_DEPTH then None
      else (match FreezePairs(pairs, depth + 1)
            case None => None
            case Some(entries) =>
              if UniqueNames(entries) then Some(Obj(SortBy(EntryKey, entries))) else None)
    case ROther => None
  }

  function FreezeItems(items: seq<Raw>, depth: nat): Option<seq<Json>>
    decreases items
  {
    if items == [] then Some([])
    else match Freeze(items[0], depth)
      case None => None
      case Some(first) =>
        match FreezeItems(items[1..], depth)
        case None => None
        case Some(rest) => Some([first] + rest)
  }

  function FreezePairs(pairs: seq<Pair>, depth: nat): Option<seq<Entry>>
    decreases pairs
  {
    if pairs == [] then Some([])
    else if !Scalar(pairs[0].name) then None
    else match Freeze(pairs[0].value, depth)
      case None => None
      case Some(first) =>
        match FreezePairs(pairs[1..], depth)
        case None => None
        case Some(rest) => Some([Entry(pairs[0].name, first)] + rest)
  }

  predicate UniqueNames(entries: seq<Entry>) {
    forall i, j :: 0 <= i < j < |entries| ==> entries[i].name != entries[j].name
  }

  /** A Python dict has one value per name. */
  predicate UniquePairs(pairs: seq<Pair>) {
    forall i, j :: 0 <= i < j < |pairs| ==> pairs[i].name != pairs[j].name
  }

  /** Container depth: scalars have none. */
  function Depth(v: Json): nat
    decreases v
  {
    match v
    case Arr(items) => 1 + ItemsDepth(items)
    case Obj(entries) => 1 + EntriesDepth(entries)
    case _ => 0
  }

  function ItemsDepth(items: seq<Json>): nat
    decreases items
  {
    if items == [] then 0 else Max(Depth(items[0]), ItemsDepth(items[1..]))
  }

  function EntriesDepth(entries: seq<Entry>): nat
    decreases entries
  {
    if entries == [] then 0 else Max(Depth(entries[0].value), EntriesDepth(entries[1..]))
  }

  function Max(a: nat, b: nat): nat {
    if a < b then b else a
  }

  /** What freezing establishes, apart from depth: integers in range, floats that are
      binary64 values, scalar text, and objects in strict key order. */
  ghost predicate Sound(near: Rounding, v: Json)
    decreases v
  {
    match v
    case Int(n) => Signed64(n)
    case Float(d) => near(d) == Some(d)
    case Str(s) => Scalar(s)
    case Arr(items) => SoundItems(near, items)
    case Obj(entries) => SoundEntries(near, entries) && StrictlySorted(EntryKey, entries)
    case _ => true
  }

  ghost predicate SoundItems(near: Rounding, items: seq<Json>)
    decreases items
  {
    items == [] || (Sound(near, items[0]) && SoundItems(near, items[1..]))
  }

  ghost predicate SoundEntries(near: Rounding, entries: seq<Entry>)
    decreases entries
  {
    entries == [] || (Scalar(entries[0].name) && Sound(near, entries[0].value) && SoundEntries(near, entries[1..]))
  }

  ghost predicate Frozen(near: Rounding, v: Json, depth: nat) {
    Sound(near, v) && depth + Depth(v) <= MAX_JSON_DEPTH
  }

  /** Every finite float in a Python value is one of the platform's binary64 values. */
  ghost predicate Genuine(near: Rounding, value: Raw)
    decreases value
  {
    match value
    case RFloat(Finite(d)) => near(d) == Some(d)
    case RList(items) => forall i :: 0 <= i < |items| ==> Genuine(near, items[i])
    case RDict(pairs) => forall i :: 0 <= i < |pairs| ==> Genuine(near, pairs[i].value)
    case _ => true
  }

  /** `_thaw_json`: the plain value of a frozen one. */
  function Thaw(v: Json): Raw
    decreases v
  {
    match v
    case Null => RNull
    case Bool(b) => RBool(b)
    case Int(n) => RInt(n)
    case Float(d) => RFloat(Finite(d))
    case Str(s) => RText(s)
    case Arr(items) => RList(ThawItems(items))
    case Obj(entries) => RDict(ThawEntries(entries))
  }

  function ThawItems(items: seq<Json>): (r: seq<Raw>)
    ensures |r| == |items|
    decreases items
  {
    if items == [] then [] else [Thaw(items[0])] + ThawItems(items[1..])
  }

  function ThawEntries(entries: seq<Entry>): (r: seq<Pair>)
    ensures |r| == |entries|
    ensures forall i :: 0 <= i < |r| ==> r[i].name == entries[i].name
    decreases entries
  {
    if entries == [] then [] else [Pair(entries[0].name, Thaw(entries[0].value))] + ThawEntries(entries[1..])
  }

  // ----- canonical text -----

  function HexDigit(n: int): CodePoint
    requires 0 <= n < 16
  {
    if n < 10 then ZERO + n else 'a' as int + (n - 10)
  }

  function EscapeChar(c: CodePoint): Text {
    if c == 0x08 then [BACKSLASH, 'b' as int]
    else if c == 0x09 then [BACKSLASH, 't' as int]
    else if c == 0x0A then [BACKSLASH, 'n' as int]
    else if c == 0x0C then [BACKSLASH, 'f' as int]
    else if c == 0x0D then [BACKSLASH, 'r' as int]
    else if c == QUOTE then [BACKSLASH, QUOTE]
    else if c == BACKSLASH then [BACKSLASH, BACKSLASH]
    else if c <= 0x1F then [BACKSLASH, 'u' as int, ZERO, ZERO, HexDigit(c / 16), HexDigit(c % 16)]
    else [c]
  }

  function Escaped(s: Text): Text {
    if s == [] then [] else EscapeChar(s[0]) + Escaped(s[1..])
  }

  function StringText(s: Text): Text {
    [QUOTE] + Escaped(s) + [QUOTE]
  }

  const NULL_TEXT: Text := ['n' as int, 'u' as int, 'l' as int, 'l' as int]
  const TRUE_TEXT: Text := ['t' as int, 'r' as int, 'u' as int, 'e' as int]
  const FALSE_TEXT: Text := ['f' as int, 'a' as int, 'l' as int, 's' as int, 'e' as int]

  /** `_encode_json`. */
  function Render(v: Json): Text
    decreases v
  {
    match v
    case Null => NULL_TEXT
    case Bool(b) => if b then TRUE_TEXT else FALSE_TEXT
    case Int(n) => IntText(n)
    case Float(d) => EncodeBinary64(d)
    case Str(s) => StringText(s)
    case Arr(items) => [OPEN_LIST] + RenderItems(items) + [CLOSE_LIST]
    case Obj(entries) => [OPEN_DICT] + RenderEntries(entries) + [CLOSE_DICT]
  }

  function RenderItems(items: seq<Json>): Text
    decreases items
  {
    if items == [] then []
    else Render(items[0]) + if |items| == 1 then [] else [COMMA] + RenderItems(items[1..])
  }

  function RenderEntries(entries: seq<Entry>): Text
    decreases entries
  {
    if entries == [] then []
    else StringText(entries[0].name) + [COLON] + Render(entries[0].value)
         + if |entries| == 1 then [] else [COMMA] + RenderEntries(entries[1..])
  }

  /** `canonical_json_bytes`. */
  function CanonicalBytes(value: Raw): Option<Bytes> {
    match Freeze(value, 0)
    case None => None
    case Some(v) => Some(Utf8(Render(v)))
  }

  // ----- facts about freezing -----

  lemma {:induction false} UniqueIsDistinct(entries: seq<Entry>)
    requires UniqueNames(entries) && forall i :: 0 <= i < |entries| ==> Scalar(entries[i].name)
    ensures DistinctKeys(EntryKey, entries)
  {
    forall i, j | 0 <= i < j < |entries| ensures EntryKey(entries[i]) != EntryKey(entries[j]) {
      if Utf16Key(entries[i].name) == Utf16Key(entries[j].name) {
        Utf16Injective(entries[i].name, entries[j].name);
      }
    }
  }

  lemma {:induction false} SoundMembers(near: Rounding, entries: seq<Entry>)
    ensures SoundEntries(near, entries)
        <==> forall e :: e in entries ==> Scalar(e.name) && Sound(near, e.value)
    decreases entries
  {
    if entries != [] {
      SoundMembers(near, entries[1..]);
      assert forall e :: e in entries <==> e == entries[0] || e in entries[1..];
    }
  }

  lemma {:induction false} EntriesDepthBound(entries: seq<Entry>, bound: nat)
    ensures EntriesDepth(entries) <= bound <==> forall e :: e in entries ==> Depth(e.value) <= bound
    decreases entries
  {
    if entries != [] {
      EntriesDepthBound(entries[1..], bound);
      assert forall e :: e in entries <==> e == entries[0] || e in entries[1..];
    }
  }

  lemma {:induction false} SortedEntries(near: Rounding, entries: seq<Entry>)
    requires SoundEntries(near, entries) && UniqueNames(entries)
    ensures var sorted := SortBy(EntryKey, entries);
            SoundEntries(near, sorted) && StrictlySorted(EntryKey, sorted)
            && EntriesDepth(sorted) == EntriesDepth(entries)
  {
    var sorted := SortBy(EntryKey, entries);
    SoundMembers(near, entries);
    SoundMembers(near, sorted);
    UniqueIsDistinct(entries);
    SortStrict(EntryKey, entries);
    SortElements(EntryKey, entries);
    SameMembers(sorted, entries);
    EntriesDepthBound(entries, EntriesDepth(entries));
    EntriesDepthBound(entries, EntriesDepth(sorted));
    EntriesDepthBound(sorted, EntriesDepth(entries));
    EntriesDepthBound(sorted, EntriesDepth(sorted));
  }

  /** Whatever freezes is sound and within the depth limit. */
  lemma {:induction false} FreezeSound(near: Rounding, value: Raw, depth: nat)
    requires Genuine(near, value) && depth <= MAX_JSON_DEPTH
    ensures Freeze(value, depth).Some? ==> Frozen(near, Freeze(value, depth).value, depth)
    decreases value
  {
    match value
    case RList(items) =>
      if depth < MAX_JSON_DEPTH {
        FreezeItemsSound(near, items, depth + 1);
      }
    case RDict(pairs) =>
      if depth < MAX_JSON_DEPTH {
        FreezePairsSound(near, pairs, depth + 1);
        var entries := FreezePairs(pairs, depth + 1);
        if entries.Some? && UniqueNames(entries.value) {
          SortedEntries(near, entries.value);
        }
      }
    case _ =>
  }

  lemma {:induction false} FreezeItemsSound(near: Rounding, items: seq<Raw>, depth: nat)
    requires forall i :: 0 <= i < |items| ==> Genuine(near, items[i])
    requires depth <= MAX_JSON_DEPTH
    ensures var r := FreezeItems(items, depth);
            r.Some? ==> SoundItems(near, r.value) && depth + ItemsDepth(r.value) <= MAX_JSON_DEPTH
    decreases items
  {
    if items != [] {
      FreezeSound(near, items[0], depth);
      FreezeItemsSound(near, items[1..], depth);
    }
  }

  lemma {:induction false} FreezePairsSound(near: Rounding, pairs: seq<Pair>, depth: nat)
    requires forall i :: 0 <= i < |pairs| ==> Genuine(near, pairs[i].value)
    requires depth <= MAX_JSON_DEPTH
    ensures var r := FreezePairs(pairs, depth);
            r.Some? ==> SoundEntries(near, r.value) && depth + EntriesDepth(r.value) <= MAX_JSON_DEPTH
    decreases pairs
  {
    if pairs != [] {
      FreezeSound(near, pairs[0].value, depth);
      FreezePairsSound(near, pairs[1..], depth);
    }
  }

  lemma {:induction false} StrictIsUnique(entries: seq<Entry>)
    requires StrictlySorted(EntryKey, entries)
    ensures UniqueNames(entries)
  {
    forall i, j | 0 <= i < j < |entries| ensures entries[i].name != entries[j].name {
      LessTotal(EntryKey(entries[i]), EntryKey(entries[j]));
    }
  }

  /** A sound value, thawed and frozen again, comes back exactly when the depth limit
      leaves room for it: a frozen value is its own normal form. */
  lemma {:induction false} FreezeThaw(near: Rounding, v: Json, depth: nat)
    requires Sound(near, v) && depth <= MAX_JSON_DEPTH
    ensures Freeze(Thaw(v), depth) == if depth + Depth(v) <= MAX_JSON_DEPTH then Some(v) else None
    decreases v
  {
    match v
    case Arr(items) =>
      if depth < MAX_JSON_DEPTH {
        FreezeThawItems(near, items, depth + 1);
      }
    case Obj(entries) =>
      FreezeThawObject(near, entries, depth);
    case _ =>
  }

  lemma {:induction false} FreezeThawObject(near: Rounding, entries: seq<Entry>, depth: nat)
    requires Sound(near, Obj(entries)) && depth <= MAX_JSON_DEPTH
    ensures Freeze(Thaw(Obj(entries)), depth)
         == if depth + Depth(Obj(entries)) <= MAX_JSON_DEPTH then Some(Obj(entries)) else None
    decreases entries, 1
  {
    if depth < MAX_JSON_DEPTH {
      FreezeThawEntries(near, entries, depth + 1);
      AlreadySorted(entries);
    }
  }

  lemma {:induction false} AlreadySorted(entries: seq<Entry>)
    requires StrictlySorted(EntryKey, entries)
    ensures UniqueNames(entries) && SortBy(EntryKey, entries) == entries
  {
    StrictIsUnique(entries);
    SortIdentity(EntryKey, entries);
  }

  lemma {:induction false} FreezeThawItems(near: Rounding, items: seq<Json>, depth: nat)
    requires SoundItems(near, items) && depth <= MAX_JSON_DEPTH
    ensures FreezeItems(ThawItems(items), depth)
         == if depth + ItemsDepth(items) <= MAX_JSON_DEPTH then Some(items) else None
    decreases items
  {
    if items != [] {
      FreezeThaw(near, items[0], depth);
      FreezeThawItems(near, items[1..], depth);
      assert ThawItems(items)[1..] == ThawItems(items[1..]);
      assert items == [items[0]] + items[1..];
    }
  }

  lemma {:induction false} FreezeThawEntries(near: Rounding, entries: seq<Entry>, depth: nat)
    requires SoundEntries(near, entries) && depth <= MAX_JSON_DEPTH
    ensures FreezePairs(ThawEntries(entries), depth)
         == if depth + EntriesDepth(entries) <= MAX_JSON_DEPTH then Some(entries) else None
    decreases entries, 0
  {
    if entries != [] {
      FreezeThaw(near, entries[0].value, depth);
      FreezeThawEntries(near, entries[1..], depth);
      assert ThawEntries(entries)[1..] == ThawEntries(entries[1..]);
      assert entries == [entries[0]] + entries[1..];
    }
  }

  // ----- which values freeze -----

  /** What a value must be by itself, whatever is inside it. */
  predicate Ordinary(value: Raw) {
    match value
    case RInt(n) => Signed64(n)
    case RFloat(f) => f.Finite?
    case RText(s) => Scalar(s)
    case RDict(pairs) => UniquePairs(pairs) && forall i :: 0 <= i < |pairs| ==> Scalar(pairs[i].name)
    case ROther => false
    case _ => true
  }

  /** The value itself, or a value anywhere inside it. */
  ghost predicate Inside(x: Raw, value: Raw)
    decreases value
  {
    || x == value
    || (value.RList? && exists i :: 0 <= i < |value.items| && Inside(x, value.items[i]))
    || (value.RDict? && exists i :: 0 <= i < |value.pairs| && Inside(x, value.pairs[i].value))
  }

  /** Lists and dicts are nested at most this deep. */
  predicate Nested(value: Raw, depth: int)
    decreases value
  {
    match value
    case RList(items) => depth >= 1 && forall i :: 0 <= i < |items| ==> Nested(items[i], depth - 1)
    case RDict(pairs) => depth >= 1 && forall i :: 0 <= i < |pairs| ==> Nested(pairs[i].value, depth - 1)
    case _ => true
  }

  ghost predicate AllOrdinary(value: Raw) {
    forall x :: Inside(x, value) ==> Ordinary(x)
  }

  lemma {:induction false} OrdinaryList(items: seq<Raw>)
    ensures AllOrdinary(RList(items)) <==> forall i :: 0 <= i < |items| ==> AllOrdinary(items[i])
  {
    var value := RList(items);
    if AllOrdinary(value) {
      forall i, x | 0 <= i < |items| && Inside(x, items[i]) ensures Ordinary(x) {
        assert Inside(x, value);
      }
    }
    if forall i :: 0 <= i < |items| ==> AllOrdinary(items[i]) {
      forall x | Inside(x, value) ensures Ordinary(x) {
      }
    }
  }

  lemma {:induction false} OrdinaryDict(pairs: seq<Pair>)
    ensures AllOrdinary(RDict(pairs))
       <==> Ordinary(RDict(pairs)) && forall i :: 0 <= i < |pairs| ==> AllOrdinary(pairs[i].value)
  {
    var value := RDict(pairs);
    assert Inside(value, value);
    if AllOrdinary(value) {
      forall i, x | 0 <= i < |pairs| && Inside(x, pairs[i].value) ensures Ordinary(x) {
        assert Inside(x, value);
      }
    }
    if Ordinary(value) && forall i :: 0 <= i < |pairs| ==> AllOrdinary(pairs[i].value) {
      forall x | Inside(x, value) ensures Ordinary(x) {
        if x != value {
          var i :| 0 <= i < |pairs| && Inside(x, pairs[i].value);
          assert AllOrdinary(pairs[i].value);
        }
      }
    }
  }

  lemma {:induction false} FreezeItemsPointwise(items: seq<Raw>, depth: nat)
    ensures FreezeItems(items, depth).Some? <==> forall i :: 0 <= i < |items| ==> Freeze(items[i], depth).Some?
    decreases items
  {
    if items != [] {
      FreezeItemsPointwise(items[1..], depth);
      assert forall i :: 1 <= i < |items| ==> items[i] == items[1..][i - 1];
    }
  }

  /** A value freezes exactly when its containers are nested at most 64 deep, and nowhere in
      it there is an infinity or a NaN, an integer outside 64 bits, a surrogate in a text or
      in a name, a name given twice, or a value of another type. */
  lemma {:induction false} FreezeIff(value: Raw, depth: nat)
    requires depth <= MAX_JSON_DEPTH
    ensures Freeze(value, depth).Some? <==> Nested(value, MAX_JSON_DEPTH - depth) && AllOrdinary(value)
    decreases value
  {
    match value
    case RList(items) =>
      OrdinaryList(items);
      FreezeItemsPointwise(items, depth + 1);
      if depth < MAX_JSON_DEPTH {
        forall i | 0 <= i < |items|
          ensures Freeze(items[i], depth + 1).Some?
             <==> Nested(items[i], MAX_JSON_DEPTH - depth - 1) && AllOrdinary(items[i])
        {
          FreezeIff(items[i], depth + 1);
        }
      }
    case RDict(pairs) =>
      OrdinaryDict(pairs);
      FreezePairsPointwise(pairs, depth + 1);
      if depth < MAX_JSON_DEPTH {
        forall i | 0 <= i < |pairs|
          ensures Freeze(pairs[i].value, depth + 1).Some?
             <==> Nested(pairs[i].value, MAX_JSON_DEPTH - depth - 1) && AllOrdinary(pairs[i].value)
        {
          FreezeIff(pairs[i].value, depth + 1);
        }
      }
    case _ =>
      assert Inside(value, value);
  }

  // ----- which characters are escaped -----

  /** Control characters, the quote and the backslash. */
  predicate MustEscape(c: CodePoint) {
    c < 0x20 || c == QUOTE || c == BACKSLASH
  }

  /** These are escaped, by two characters where JSON has a letter for them and by six
      otherwise; every other character, a slash or a letter past ASCII too, stands for itself. */
  lemma {:induction false} EscapeIff(c: CodePoint)
    ensures EscapeChar(c) == [c] <==> !MustEscape(c)
    ensures MustEscape(c) ==>
              var e := EscapeChar(c);
              && e[0] == BACKSLASH && |e| == (if c in {0x08, 0x09, 0x0A, 0x0C, 0x0D, QUOTE, BACKSLASH} then 2 else 6)
              && forall i :: 0 <= i < |e| ==> 0x20 <= e[i] < 0x7F
  {
  }

  /** A text is printed as itself exactly when it holds none of these. */
  lemma {:induction false} EscapedIff(s: Text)
    ensures Escaped(s) == s <==> forall i :: 0 <= i < |s| ==> !MustEscape(s[i])
    ensures |Escaped(s)| >= |s| && (Escaped(s) == s <==> |Escaped(s)| == |s|)
  {
    if s != [] {
      EscapedIff(s[1..]);
      EscapeIff(s[0]);
      assert s == [s[0]] + s[1..];
      assert forall i :: 1 <= i < |s| ==> s[i] == s[1..][i - 1];
    }
  }

  // ----- insertion order does not matter -----

  lemma {:induction false} FreezePairsPointwise(pairs: seq<Pair>, depth: nat)
    ensures FreezePairs(pairs, depth).Some?
        <==> forall i :: 0 <= i < |pairs| ==> Scalar(pairs[i].name) && Freeze(pairs[i].value, depth).Some?
    ensures FreezePairs(pairs, depth).Some? ==>
              var r := FreezePairs(pairs, depth).value;
              |r| == |pairs|
              && forall i :: 0 <= i < |pairs| ==> r[i] == Entry(pairs[i].name, Freeze(pairs[i].value, depth).value)
    decreases pairs
  {
    if pairs != [] {
      FreezePairsPointwise(pairs[1..], depth);
      assert pairs == [pairs[0]] + pairs[1..];
      assert forall i :: 1 <= i < |pairs| ==> pairs[i] == pairs[1..][i - 1];
    }
  }

  /** The canonical bytes of a dict depend on its contents, not on its insertion order. */
  lemma {:induction false} InsertionOrderIrrelevant(a: seq<Pair>, b: seq<Pair>)
    requires multiset(a) == multiset(b) && UniquePairs(a) && UniquePairs(b)
    ensures CanonicalBytes(RDict(a)) == CanonicalBytes(RDict(b))
  {
    SameMembers(a, b);
    FreezePairsPointwise(a, 1);
    FreezePairsPointwise(b, 1);
    var fa, fb := FreezePairs(a, 1), FreezePairs(b, 1);
    if fa.Some? {
      forall i | 0 <= i < |b| ensures Scalar(b[i].name) && Freeze(b[i].value, 1).Some? {
        assert b[i] in a;
      }
      FrozenMembers(a, b, fa.value, fb.value);
      SortUnique(fa.value, fb.value);
    } else {
      if fb.Some? {
        forall i | 0 <= i < |a| ensures Scalar(a[i].name) && Freeze(a[i].value, 1).Some? {
          assert a[i] in b;
        }
      }
    }
  }

  lemma {:induction false} FrozenMembers(a: seq<Pair>, b: seq<Pair>, fa: seq<Entry>, fb: seq<Entry>)
    requires FreezePairs(a, 1) == Some(fa) && FreezePairs(b, 1) == Some(fb)
    requires UniquePairs(a) && UniquePairs(b) && forall x :: x in a <==> x in b
    ensures UniqueNames(fa) && UniqueNames(fb) && forall x :: x in fa <==> x in fb
    ensures forall i :: 0 <= i < |fa| ==> Scalar(fa[i].name)
    ensures forall i :: 0 <= i < |fb| ==> Scalar(fb[i].name)
  {
    FreezePairsPointwise(a, 1);
    FreezePairsPointwise(b, 1);
    forall x ensures x in fa <==> x in fb {
      if x in fa {
        var i :| 0 <= i < |fa| && fa[i] == x;
        assert a[i] in b;
        var j :| 0 <= j < |b| && b[j] == a[i];
        assert fb[j] == x;
      }
      if x in fb {
        var i :| 0 <= i < |fb| && fb[i] == x;
        assert b[i] in a;
        var j :| 0 <= j < |a| && a[j] == b[i];
        assert fa[j] == x;
      }
    }
  }

  lemma {:induction false} SortUnique(a: seq<Entry>, b: seq<Entry>)
    requires UniqueNames(a) && UniqueNames(b) && forall x :: x in a <==> x in b
    requires forall i :: 0 <= i < |a| ==> Scalar(a[i].name)
    requires forall i :: 0 <= i < |b| ==> Scalar(b[i].name)
    ensures SortBy(EntryKey, a) == SortBy(EntryKey, b)
  {
    UniqueIsDistinct(a);
    UniqueIsDistinct(b);
    SortStrict(EntryKey, a);
    SortStrict(EntryKey, b);
    SortElements(EntryKey, a);
    SortElements(EntryKey, b);
    SameMembers(SortBy(EntryKey, a), a);
    SameMembers(SortBy(EntryKey, b), b);
    StrictUnique(EntryKey, SortBy(EntryKey, a), SortBy(EntryKey, b));
  }

  // ----- the same computations as the program runs them -----

  /** `_freeze_json`, with its loops over sequences and mappings. */
  method FreezeValue(value: Raw, depth: nat) returns (r: Option<Json>)
    ensures r == Freeze(value, depth)
    decreases value
  {
    match value
    case RList(items) =>
      if depth + 1 > MAX_JSON_DEPTH { return None; }
      var frozen: seq<Json> := [];
      assert items[0..] == items;
      OntoEnds(frozen, FreezeItems(items, depth + 1));
      for k := 0 to |items|
        invariant FreezeItems(items, depth + 1) == Onto(frozen, FreezeItems(items[k..], depth + 1))
      {
        ghost var rest := FreezeItems(items[k + 1..], depth + 1);
        assert items[k..][1..] == items[k + 1..];
        var item := FreezeValue(items[k], depth + 1);
        if item.None? { return None; }
        OntoStep(frozen, item.value, rest);
        frozen := frozen + [item.value];
      }
      OntoEnds(frozen, None);
      return Some(Arr(frozen));
    case RDict(pairs) =>
      if depth + 1 > MAX_JSON_DEPTH { return None; }
      var entries: seq<Entry> := [];
      assert pairs[0..] == pairs;
      OntoEnds(entries, FreezePairs(pairs, depth + 1));
      for k := 0 to |pairs|
        invariant FreezePairs(pairs, depth + 1) == Onto(entries, FreezePairs(pairs[k..], depth + 1))
      {
        ghost var rest := FreezePairs(pairs[k + 1..], depth + 1);
        assert pairs[k..][1..] == pairs[k + 1..];
        if !Scalar(pairs[k].name) { return None; }
        var item := FreezeValue(pairs[k].value, depth + 1);
        if item.None? { return None; }
        var entry := Entry(pairs[k].name, item.value);
        OntoStep(entries, entry, rest);
        entries := entries + [entry];
      }
      OntoEnds(entries, None);
      if !UniqueNames(entries) { return None; }
      return Some(Obj(SortBy(EntryKey, entries)));
    case _ =>
      r := Freeze(value, depth);
  }

  function Joined(pieces: seq<Text>): Text {
    if pieces == [] then [] else Joined(pieces[..|pieces| - 1]) + pieces[|pieces| - 1]
  }

  /** `_encode_string`: pieces appended one character at a time, then joined. */
  method EncodeString(value: Text) returns (r: Option<Text>)
    ensures r == if Scalar(value) then Some(StringText(value)) else None
  {
    var pieces: seq<Text> := [[QUOTE]];
    for k := 0 to |value|
      invariant forall i :: 0 <= i < k ==> !IsSurrogate(value[i])
      invariant Joined(pieces) + Escaped(value[k..]) == [QUOTE] + Escaped(value)
    {
      if IsSurrogate(value[k]) { return None; }
      var piece := EscapeChar(value[k]);
      assert value[k..][1..] == value[k + 1..];
      Assoc(Joined(pieces), piece, Escaped(value[k + 1..]));
      assert (pieces + [piece])[..|pieces|] == pieces;
      pieces := pieces + [piece];
    }
    assert Joined(pieces) == [QUOTE] + Escaped(value);
    assert (pieces + [[QUOTE]])[..|pieces|] == pieces;
    pieces := pieces + [[QUOTE]];
    return Some(Joined(pieces));
  }
}
