/** Critical options and extensions of a certificate: a sorted list of name and
    value pairs in which a non-empty value carries two length prefixes. */
module Certs {
  import opened Bytes
  import opened Mpint
  import opened Options

  type Key = seq<byte>

  datatype Error = ShortRead | NotInLexicalOrder | TrailingData
  datatype Result<+T> = Ok(value: T) | Err(error: Error)
  /** One pair as it appears on the wire: `raw` is the data field, `value` the string inside it. */
  datatype Tuple = Tuple(key: Key, raw: seq<byte>, value: seq<byte>)

  // ---- Lexical order ----

  predicate Less(a: Key, b: Key)
  {
    if b == [] then false
    else if a == [] then true
    else a[0] < b[0] || (a[0] == b[0] && Less(a[1..], b[1..]))
  }

  lemma {:induction false} LessTransitive(a: Key, b: Key, c: Key)
    requires Less(a, b) && Less(b, c)
    ensures Less(a, c)
  {
    if a != [] && a[0] == b[0] == c[0] {
      LessTransitive(a[1..], b[1..], c[1..]);
    }
  }

  lemma {:induction false} LessTrichotomy(a: Key, b: Key)
    ensures Less(a, b) || a == b || Less(b, a)
    ensures !(Less(a, b) && Less(b, a)) && !Less(a, a)
  {
    if a != [] {
      LessTrichotomy(a[1..], a[1..]);
    }
    if a != [] && b != [] {
      LessTrichotomy(a[1..], b[1..]);
      assert a == [a[0]] + a[1..] && b == [b[0]] + b[1..];
    }
  }

  predicate Ascending(keys: seq<Key>)
  {
    forall i, j :: 0 <= i < j < |keys| ==> Less(keys[i], keys[j])
  }

  ghost function KeySet(keys: seq<Key>): set<Key>
  {
    set k | k in keys
  }

  lemma NoKeys(a: seq<Key>)
    ensures a == [] <==> KeySet(a) == {}
  {
    if a != [] {
      assert a[0] in KeySet(a);
    }
  }

  /** A key set has one ascending listing. */
  lemma {:induction false} AscendingUnique(a: seq<Key>, b: seq<Key>)
    requires Ascending(a) && Ascending(b) && KeySet(a) == KeySet(b)
    ensures a == b
  {
    NoKeys(a);
    NoKeys(b);
    if a != [] {
      assert a[0] in KeySet(b) && b[0] in KeySet(a);
      LessTrichotomy(a[0], b[0]);
      assert a[0] == b[0];
      TailKeys(a);
      TailKeys(b);
      AscendingUnique(a[1..], b[1..]);
    }
  }

  lemma TailKeys(a: seq<Key>)
    requires a != [] && Ascending(a)
    ensures Ascending(a[1..]) && KeySet(a[1..]) == KeySet(a) - {a[0]}
  {
    LessTrichotomy(a[0], a[0]);
    forall k | k in KeySet(a) && k != a[0]
      ensures k in KeySet(a[1..])
    {
      assert k in [a[0]] + a[1..];
    }
  }

  // ---- Encoding ----

  predicate Bound(keys: seq<Key>, options: map<Key, seq<byte>>)
  {
    forall i :: 0 <= i < |keys| ==> keys[i] in options
  }

  lemma AllBound(keys: seq<Key>, options: map<Key, seq<byte>>)
    requires KeySet(keys) == options.Keys
    ensures Bound(keys, options)
  {
    forall i | 0 <= i < |keys|
      ensures keys[i] in options
    {
      assert keys[i] in KeySet(keys);
    }
  }

  function EncodeTuple(key: Key, value: seq<byte>): seq<byte>
  {
    EncodeString(key) + EncodeString(if value == [] then [] else EncodeString(value))
  }

  function EncodeTuples(keys: seq<Key>, options: map<Key, seq<byte>>): seq<byte>
    requires Bound(keys, options)
  {
    if keys == [] then []
    else EncodeTuple(keys[0], options[keys[0]]) + EncodeTuples(keys[1..], options)
  }

  // ---- Parsing ----

  /** The embedded string of a data field. */
  function ParseValue(raw: seq<byte>): Result<seq<byte>>
  {
    if raw == [] then Ok([])
    else
      match ParseString(raw)
      case Short => Err(ShortRead)
      case Parsed(value, extra) => if extra == [] then Ok(value) else Err(TrailingData)
  }

  function ParseTuple(input: seq<byte>, last: Option<Key>): (r: Result<(Tuple, seq<byte>)>)
    ensures r.Ok? ==> |r.value.1| < |input|
  {
    match ParseString(input)
    case Short => Err(ShortRead)
    case Parsed(key, afterKey) =>
      if last.Some? && !Less(last.value, key) then Err(NotInLexicalOrder)
      else
        match ParseString(afterKey)
        case Short => Err(ShortRead)
        case Parsed(raw, rest) =>
          match ParseValue(raw)
          case Err(e) => Err(e)
          case Ok(value) => Ok((Tuple(key, raw, value), rest))
  }

  function ParseList(input: seq<byte>, last: Option<Key>): Result<seq<Tuple>>
    decreases |input|
  {
    if input == [] then Ok([])
    else
      match ParseTuple(input, last)
      case Err(e) => Err(e)
      case Ok((t, rest)) =>
        match ParseList(rest, Some(t.key))
        case Err(e) => Err(e)
        case Ok(ts) => Ok([t] + ts)
  }

  function MapOf(ts: seq<Tuple>): map<Key, seq<byte>>
  {
    if ts == [] then map[]
    else MapOf(ts[..|ts| - 1])[ts[|ts| - 1].key := ts[|ts| - 1].value]
  }

  function ParseTuples(input: seq<byte>): Result<map<Key, seq<byte>>>
  {
    match ParseList(input, None)
    case Err(e) => Err(e)
    case Ok(ts) => Ok(MapOf(ts))
  }

  // ---- Round trip from options ----

  function PairOf(key: Key, value: seq<byte>): Tuple
  {
    Tuple(key, if value == [] then [] else EncodeString(value), value)
  }

  /** The pairs that the encoding of `options` parses to. */
  function Pairs(keys: seq<Key>, options: map<Key, seq<byte>>): (r: seq<Tuple>)
    requires Bound(keys, options)
    ensures |r| == |keys|
    ensures forall i :: 0 <= i < |keys| ==> r[i] == PairOf(keys[i], options[keys[i]])
  {
    seq(|keys|, i requires 0 <= i < |keys| => PairOf(keys[i], options[keys[i]]))
  }

  function RawOf(value: seq<byte>): seq<byte>
  {
    if value == [] then [] else EncodeString(value)
  }

  /** Both strings of the tuple can be counted when `tail` follows. */
  predicate TupleFits(key: Key, value: seq<byte>, tail: seq<byte>)
  {
    Counted(key, EncodeString(RawOf(value)) + tail) && Counted(RawOf(value), tail)
  }

  predicate TuplesFit(keys: seq<Key>, options: map<Key, seq<byte>>)
    requires Bound(keys, options)
  {
    keys == [] || (TupleFits(keys[0], options[keys[0]], EncodeTuples(keys[1..], options)) && TuplesFit(keys[1..], options))
  }

  lemma ParseRaw(value: seq<byte>, raw: seq<byte>)
    ensures |RawOf(value)| < U32_MODULUS ==> ParseValue(RawOf(value)) == Ok(value)
    ensures ParseValue(raw) == Ok(value) && value != [] ==> |raw| == |RawOf(value)|
  {
    ParseWholeString(value);
  }

  /** A tuple comes back exactly when it fits. */
  lemma ParseTupleExact(key: Key, value: seq<byte>, last: Option<Key>, tail: seq<byte>)
    requires last.Some? ==> Less(last.value, key)
    ensures var r := ParseTuple(EncodeTuple(key, value) + tail, last);
            && (TupleFits(key, value, tail) ==> r == Ok((PairOf(key, value), tail)))
            && (r.Ok? && r.value.0.key == key && r.value.0.value == value ==> TupleFits(key, value, tail))
  {
    hide ParseString, EncodeString, Counted, ParseValue, Less;
    var raw := RawOf(value);
    var after := EncodeString(raw) + tail;
    assert EncodeTuple(key, value) + tail == EncodeString(key) + after;
    ParseEncodeString(key, after);
    ParseEncodeString(raw, tail);
    CountedShort(raw, tail);
    ParseRaw(value, if ParseString(after).Parsed? then ParseString(after).value else []);
  }

  lemma CountedShort(s: seq<byte>, rest: seq<byte>)
    ensures Counted(s, rest) ==> |s| < U32_MODULUS
    ensures s == [] ==> Counted(s, rest)
  {
  }

  lemma ParseListStep(input: seq<byte>, last: Option<Key>, t: Tuple, rest: seq<byte>, ts: seq<Tuple>)
    requires input != [] && ParseTuple(input, last) == Ok((t, rest))
    requires ParseList(rest, Some(t.key)) == Ok(ts)
    ensures ParseList(input, last) == Ok([t] + ts)
  {
  }

  lemma {:induction false} ParseEncodedTuples(keys: seq<Key>, options: map<Key, seq<byte>>, last: Option<Key>)
    requires Ascending(keys) && Bound(keys, options) && TuplesFit(keys, options)
    requires last.Some? && keys != [] ==> Less(last.value, keys[0])
    ensures ParseList(EncodeTuples(keys, options), last) == Ok(Pairs(keys, options))
  {
    hide ParseTuple, TupleFits, Less, EncodeString;
    if keys == [] {
      assert Pairs(keys, options) == [];
    } else {
      var tail := EncodeTuples(keys[1..], options);
      ParseTupleExact(keys[0], options[keys[0]], last, tail);
      ParseEncodedTuples(keys[1..], options, Some(keys[0]));
      ParseListStep(EncodeTuples(keys, options), last, PairOf(keys[0], options[keys[0]]), tail, Pairs(keys[1..], options));
      assert Pairs(keys, options) == [PairOf(keys[0], options[keys[0]])] + Pairs(keys[1..], options);
    }
  }

  /** These keys, in this order, with their values. */
  predicate Lists(ts: seq<Tuple>, keys: seq<Key>, options: map<Key, seq<byte>>)
    requires Bound(keys, options)
  {
    |ts| == |keys| && forall i :: 0 <= i < |ts| ==> ts[i].key == keys[i] && ts[i].value == options[keys[i]]
  }

  lemma {:induction false} ListedFit(keys: seq<Key>, options: map<Key, seq<byte>>, last: Option<Key>)
    requires Ascending(keys) && Bound(keys, options)
    requires last.Some? && keys != [] ==> Less(last.value, keys[0])
    requires var r := ParseList(EncodeTuples(keys, options), last); r.Ok? && Lists(r.value, keys, options)
    ensures TuplesFit(keys, options)
  {
    hide ParseTuple, TupleFits, Less;
    if keys != [] {
      var tail := EncodeTuples(keys[1..], options);
      var input := EncodeTuples(keys, options);
      var ts := ParseList(input, last).value;
      ParseTupleExact(keys[0], options[keys[0]], last, tail);
      assert input != [];
      var (t, rest) := ParseTuple(input, last).value;
      assert ts[0] == t;
      var more := ParseList(rest, Some(t.key)).value;
      assert ts == [t] + more && more == ts[1..];
      assert Lists(more, keys[1..], options);
      ListedFit(keys[1..], options, Some(keys[0]));
    }
  }

  lemma {:induction false} MapOfPairs(keys: seq<Key>, options: map<Key, seq<byte>>)
    requires Bound(keys, options)
    ensures MapOf(Pairs(keys, options)) == map k | k in keys :: options[k]
  {
    if keys != [] {
      var init, last := keys[..|keys| - 1], keys[|keys| - 1];
      MapOfPairs(init, options);
      assert Pairs(keys, options)[..|keys| - 1] == Pairs(init, options);
      assert keys == init + [last];
      assert MapOf(Pairs(keys, options)) == MapOf(Pairs(init, options))[last := options[last]];
    }
  }

  lemma Restriction(keys: seq<Key>, options: map<Key, seq<byte>>)
    requires KeySet(keys) == options.Keys && Bound(keys, options)
    ensures (map k | k in keys :: options[k]) == options
  {
    assert forall k :: k in keys <==> k in KeySet(keys);
  }

  // ---- Round trip from octets ----

  function KeysOf(ts: seq<Tuple>): (r: seq<Key>)
    ensures |r| == |ts|
    ensures forall i :: 0 <= i < |ts| ==> r[i] == ts[i].key
  {
    seq(|ts|, i requires 0 <= i < |ts| => ts[i].key)
  }

  /** How many data fields hold a length prefix of zero instead of being empty. */
  function EmbeddedEmpty(ts: seq<Tuple>): nat
  {
    if ts == [] then 0
    else (if ts[0].raw != [] && ts[0].value == [] then 1 else 0) + EmbeddedEmpty(ts[1..])
  }

  lemma {:induction false} ParsedKeysAscend(input: seq<byte>, last: Option<Key>)
    requires ParseList(input, last).Ok?
    ensures var ts := ParseList(input, last).value;
            && Ascending(KeysOf(ts))
            && (last.Some? ==> forall i :: 0 <= i < |ts| ==> Less(last.value, ts[i].key))
    decreases |input|
  {
    if input != [] {
      var (t, rest) := ParseTuple(input, last).value;
      ParsedKeysAscend(rest, Some(t.key));
      var ts := ParseList(input, last).value;
      assert ts == [t] + ts[1..];
      if last.Some? {
        forall i | 0 <= i < |ts|
          ensures Less(last.value, ts[i].key)
        {
          if i > 0 {
            assert ts[i] == ts[1..][i - 1];
            LessTransitive(last.value, t.key, ts[i].key);
          }
        }
      }
      forall i, j | 0 <= i < j < |ts|
        ensures Less(KeysOf(ts)[i], KeysOf(ts)[j])
      {
        assert ts[j] == ts[1..][j - 1];
        if i > 0 {
          assert ts[i] == ts[1..][i - 1];
          assert Less(KeysOf(ts[1..])[i - 1], KeysOf(ts[1..])[j - 1]);
        }
      }
    }
  }

  lemma {:induction false} MapOfAscending(ts: seq<Tuple>)
    requires Ascending(KeysOf(ts))
    ensures KeySet(KeysOf(ts)) == MapOf(ts).Keys
    ensures forall i :: 0 <= i < |ts| ==> ts[i].key in MapOf(ts) && MapOf(ts)[ts[i].key] == ts[i].value
  {
    hide Less;
    if ts != [] {
      var n := |ts| - 1;
      var init := ts[..n];
      assert KeysOf(init) == KeysOf(ts)[..n];
      MapOfAscending(init);
      MapOfLast(ts);
      assert KeysOf(ts) == KeysOf(init) + [ts[n].key];
      LastKey(KeysOf(init), ts[n].key);
    }
  }

  lemma LastKey(keys: seq<Key>, k: Key)
    ensures KeySet(keys + [k]) == KeySet(keys) + {k}
  {
  }

  lemma MapOfLast(ts: seq<Tuple>)
    requires ts != [] && Ascending(KeysOf(ts))
    requires var init := ts[..|ts| - 1];
             forall i :: 0 <= i < |init| ==> init[i].key in MapOf(init) && MapOf(init)[init[i].key] == init[i].value
    ensures forall i :: 0 <= i < |ts| ==> ts[i].key in MapOf(ts) && MapOf(ts)[ts[i].key] == ts[i].value
  {
    var n := |ts| - 1;
    var init := ts[..n];
    forall i | 0 <= i < n
      ensures ts[i].key in MapOf(ts) && MapOf(ts)[ts[i].key] == ts[i].value
    {
      assert Less(KeysOf(ts)[i], KeysOf(ts)[n]);
      LessTrichotomy(ts[n].key, ts[n].key);
      assert init[i] == ts[i];
    }
  }

  lemma EncodeParsedString(input: seq<byte>)
    requires ParseString(input).Parsed?
    ensures var p := ParseString(input); input == EncodeString(p.value) + p.rest
  {
    PutGetU32(input);
  }

  lemma EncodeParsedTuple(input: seq<byte>, last: Option<Key>)
    requires ParseTuple(input, last).Ok?
    ensures var (t, rest) := ParseTuple(input, last).value;
            if t.raw != [] && t.value == [] then |EncodeTuple(t.key, t.value) + rest| + 4 == |input|
            else EncodeTuple(t.key, t.value) + rest == input
  {
    hide ParseString, EncodeString, Less;
    var (t, rest) := ParseTuple(input, last).value;
    EncodeParsedString(input);
    EncodeParsedString(ParseString(input).rest);
    ParsedRaw(t.raw, t.value);
    TupleJoined(t.key, t.raw, t.value, rest);
  }

  lemma ParsedRaw(raw: seq<byte>, value: seq<byte>)
    requires ParseValue(raw) == Ok(value)
    ensures raw == [] || raw == EncodeString(value)
    ensures raw == [] ==> value == []
  {
    hide EncodeString;
    if raw != [] {
      EncodeParsedString(raw);
      assert EncodeString(value) + [] == EncodeString(value);
    }
  }

  lemma TupleJoined(key: Key, raw: seq<byte>, value: seq<byte>, rest: seq<byte>)
    requires (raw == [] && value == []) || raw == EncodeString(value)
    ensures var input := EncodeString(key) + (EncodeString(raw) + rest);
            if raw != [] && value == [] then |EncodeTuple(key, value) + rest| + 4 == |input|
            else EncodeTuple(key, value) + rest == input
  {
    hide EncodeString;
    assert EncodeTuple(key, value) + rest == EncodeString(key) + (EncodeString(RawOf(value)) + rest);
  }

  predicate Agrees(ts: seq<Tuple>, options: map<Key, seq<byte>>)
  {
    forall i :: 0 <= i < |ts| ==> ts[i].key in options && options[ts[i].key] == ts[i].value
  }

  lemma {:induction false} EncodeParsedList(input: seq<byte>, last: Option<Key>, options: map<Key, seq<byte>>)
    requires ParseList(input, last).Ok?
    requires Agrees(ParseList(input, last).value, options)
    ensures var ts := ParseList(input, last).value;
            && |EncodeTuples(KeysOf(ts), options)| + 4 * EmbeddedEmpty(ts) == |input|
            && (EmbeddedEmpty(ts) == 0 ==> EncodeTuples(KeysOf(ts), options) == input)
    decreases |input|
  {
    hide ParseTuple, EncodeTuple;
    if input != [] {
      var (t, rest) := ParseTuple(input, last).value;
      var ts := ParseList(input, last).value;
      assert ts == [t] + ParseList(rest, Some(t.key)).value;
      EncodeParsedTuple(input, last);
      assert ParseList(rest, Some(t.key)).value == ts[1..];
      EncodeParsedList(rest, Some(t.key), options);
      assert KeysOf(ts)[1..] == KeysOf(ts[1..]);
    }
  }

  /** What parses is re-emitted octet for octet exactly when no data field embeds an empty string. */
  lemma EncodeInvertsParse(input: seq<byte>, keys: seq<Key>)
    requires ParseTuples(input).Ok?
    requires Ascending(keys) && KeySet(keys) == ParseTuples(input).value.Keys
    ensures Bound(keys, ParseTuples(input).value)
    ensures EncodeTuples(keys, ParseTuples(input).value) == input
            <==> EmbeddedEmpty(ParseList(input, None).value) == 0
  {
    var ts := ParseList(input, None).value;
    var options := MapOf(ts);
    ParsedKeysAscend(input, None);
    MapOfAscending(ts);
    AscendingUnique(keys, KeysOf(ts));
    AllBound(keys, options);
    EncodeParsedList(input, None, options);
  }

  lemma {:induction false} FitWhenShort(keys: seq<Key>, options: map<Key, seq<byte>>)
    requires Bound(keys, options) && |EncodeTuples(keys, options)| < U32_MODULUS
    ensures TuplesFit(keys, options)
  {
    hide EncodeTuple, TupleFits;
    if keys != [] {
      TupleFitsShort(keys[0], options[keys[0]], EncodeTuples(keys[1..], options));
      FitWhenShort(keys[1..], options);
    }
  }

  lemma TupleFitsShort(key: Key, value: seq<byte>, tail: seq<byte>)
    requires |EncodeTuple(key, value)| + |tail| < U32_MODULUS
    ensures TupleFits(key, value, tail)
  {
    hide EncodeString;
    var raw := RawOf(value);
    assert |EncodeTuple(key, value)| == 8 + |key| + |raw|;
    assert (|key| + |EncodeString(raw) + tail|) % U32_MODULUS == |key| + |EncodeString(raw) + tail|;
    assert (|raw| + |tail|) % U32_MODULUS == |raw| + |tail|;
  }

  /** Parsing inverts marshalling for every option map of any length, exactly when every string can be counted;
      below 2^32 octets it always does. */
  lemma ParseInvertsEncode(keys: seq<Key>, options: map<Key, seq<byte>>)
    requires Ascending(keys) && KeySet(keys) == options.Keys && Bound(keys, options)
    ensures ParseTuples(EncodeTuples(keys, options)) == Ok(options) <==> TuplesFit(keys, options)
    ensures |EncodeTuples(keys, options)| < U32_MODULUS ==> TuplesFit(keys, options)
  {
    hide ParseList, EncodeTuples, TuplesFit, MapOf, Ascending;
    if |EncodeTuples(keys, options)| < U32_MODULUS {
      FitWhenShort(keys, options);
    }
    if TuplesFit(keys, options) {
      ParseEncodedTuples(keys, options, None);
      MapOfPairs(keys, options);
      Restriction(keys, options);
    }
    if ParseTuples(EncodeTuples(keys, options)) == Ok(options) {
      ParsedLists(keys, options);
      ListedFit(keys, options, None);
    }
  }

  lemma ParsedLists(keys: seq<Key>, options: map<Key, seq<byte>>)
    requires Ascending(keys) && KeySet(keys) == options.Keys && Bound(keys, options)
    requires ParseTuples(EncodeTuples(keys, options)) == Ok(options)
    ensures Lists(ParseList(EncodeTuples(keys, options), None).value, keys, options)
  {
    hide ParseList, EncodeTuples;
    var ts := ParseList(EncodeTuples(keys, options), None).value;
    ParsedKeysAscend(EncodeTuples(keys, options), None);
    MapOfAscending(ts);
    AscendingUnique(keys, KeysOf(ts));
  }

  // ---- The loops of the source ----

  lemma EmptyListing(left: set<Key>)
    ensures Ascending([]) && Below([], left)
  {
  }

  /** Every listed key comes before every key that is left. */
  ghost predicate Below(keys: seq<Key>, left: set<Key>)
  {
    forall i, k :: 0 <= i < |keys| && k in left ==> Less(keys[i], k)
  }

  lemma NextLeast(keys: seq<Key>, left: set<Key>, least: Key)
    requires Ascending(keys) && Below(keys, left)
    requires least in left && forall k :: k in left && k != least ==> Less(least, k)
    ensures Ascending(keys + [least]) && Below(keys + [least], left - {least})
  {
    hide Less;
  }

  method SortKeys(options: map<Key, seq<byte>>) returns (keys: seq<Key>)
    ensures Ascending(keys) && KeySet(keys) == options.Keys
  {
    hide Less, KeySet, Ascending, Below;
    NoKeys([]);
    EmptyListing(options.Keys);
    keys := [];
    var left := options.Keys;
    while left != {}
      invariant Ascending(keys) && left <= options.Keys
      invariant KeySet(keys) == options.Keys - left
      invariant Below(keys, left)
      decreases |left|
    {
      var k := FindLeast(left);
      LastKey(keys, k);
      NextLeast(keys, left, k);
      keys, left := keys + [k], left - {k};
    }
  }

  method FindLeast(s: set<Key>) returns (least: Key)
    requires s != {}
    ensures least in s && forall k :: k in s && k != least ==> Less(least, k)
  {
    least :| least in s;
    var left := s - {least};
    while left != {}
      invariant least in s && left <= s
      invariant forall k :: k in s && k !in left && k != least ==> Less(least, k)
      decreases |left|
    {
      var k :| k in left;
      LessTrichotomy(k, least);
      if Less(k, least) {
        forall x | x in s && x !in left && x != least
          ensures Less(k, x)
        {
          LessTransitive(k, least, x);
        }
        least := k;
      }
      left := left - {k};
    }
  }

  lemma UnfoldTuples(keys: seq<Key>, options: map<Key, seq<byte>>)
    requires Bound(keys, options)
    ensures EncodeTuples(keys, options)
         == if keys == [] then [] else EncodeTuple(keys[0], options[keys[0]]) + EncodeTuples(keys[1..], options)
  {
  }

  /** `keys` is the one ascending listing of the map's keys. */
  ghost predicate Listing(keys: seq<Key>, options: map<Key, seq<byte>>)
  {
    Ascending(keys) && KeySet(keys) == options.Keys && Bound(keys, options)
  }

  method MarshalTuples(options: map<Key, seq<byte>>) returns (out: seq<byte>)
    ensures forall keys :: Listing(keys, options) ==>
              out == EncodeTuples(keys, options) && (ParseTuples(out) == Ok(options) <==> TuplesFit(keys, options))
    ensures |out| < U32_MODULUS ==> ParseTuples(out) == Ok(options)
  {
    hide Ascending, KeySet, EncodeTuple, EncodeTuples, TuplesFit, ParseTuples;
    var sorted := SortKeys(options);
    AllBound(sorted, options);
    UnfoldTuples([], options);
    out := [];
    assert sorted[0..] == sorted;
    for i := 0 to |sorted|
      invariant out + EncodeTuples(sorted[i..], options) == EncodeTuples(sorted, options)
    {
      UnfoldTuples(sorted[i..], options);
      assert sorted[i..][1..] == sorted[i + 1..];
      out := out + EncodeTuple(sorted[i], options[sorted[i]]);
    }
    assert sorted[|sorted|..] == [];
    ParseInvertsEncode(sorted, options);
    assert out == EncodeTuples(sorted, options) by { assert out + [] == out; }
    forall keys | Listing(keys, options)
      ensures out == EncodeTuples(keys, options) && (ParseTuples(out) == Ok(options) <==> TuplesFit(keys, options))
    {
      AscendingUnique(keys, sorted);
      assert keys == sorted;
    }
  }

  method UnmarshalTuples(data: seq<byte>) returns (r: Result<map<Key, seq<byte>>>)
    ensures r == ParseTuples(data)
  {
    var tups: map<Key, seq<byte>> := map[];
    var last: Option<Key> := None;
    var input := data;
    ghost var done: seq<Tuple> := [];
    Resume([], ParseList(data, None));
    while |input| > 0
      invariant tups == MapOf(done)
      invariant ParseList(data, None) == Prefixed(done, ParseList(input, last))
      decreases |input|
    {
      var key := ParseString(input);
      if key.Short? {
        return Err(ShortRead);
      }
      if last.Some? && !Less(last.value, key.value) {
        return Err(NotInLexicalOrder);
      }
      var raw := ParseString(key.rest);
      if raw.Short? {
        return Err(ShortRead);
      }
      var value: seq<byte> := [];
      if |raw.value| > 0 {
        var inner := ParseString(raw.value);
        if inner.Short? {
          return Err(ShortRead);
        }
        if |inner.rest| > 0 {
          return Err(TrailingData);
        }
        value := inner.value;
      }
      ghost var t := Tuple(key.value, raw.value, value);
      assert ParseTuple(input, last) == Ok((t, raw.rest));
      Shift(done, t, ParseList(raw.rest, Some(t.key)));
      tups := tups[key.value := value];
      done := done + [t];
      assert done[..|done| - 1] + [t] == done;
      last, input := Some(key.value), raw.rest;
    }
    assert done + [] == done;
    return Ok(tups);
  }

  ghost function Prefixed(ts: seq<Tuple>, r: Result<seq<Tuple>>): Result<seq<Tuple>>
  {
    match r
    case Err(e) => Err(e)
    case Ok(us) => Ok(ts + us)
  }

  lemma Resume(ts: seq<Tuple>, r: Result<seq<Tuple>>)
    requires ts == []
    ensures Prefixed(ts, r) == r
  {
    if r.Ok? {
      assert ts + r.value == r.value;
    }
  }

  lemma Shift(ts: seq<Tuple>, t: Tuple, r: Result<seq<Tuple>>)
    ensures Prefixed(ts, Prefixed([t], r)) == Prefixed(ts + [t], r)
  {
    if r.Ok? {
      assert ts + ([t] + r.value) == ts + [t] + r.value;
    }
  }
}
