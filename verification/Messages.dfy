/** Marshalling of message structures. The reflection over struct fields and tags
    becomes an explicit schema. */
module Messages {
  import opened Bytes
  import opened Mpint

  datatype FieldType =
    | TBool
    | TArray(length: nat)
    | TU8
    | TU32
    | TU64
    | TString
    | TRest
    | TNames
    | TInt

  datatype Value =
    | VBool(flag: bool)
    | VArray(octets: seq<byte>)
    | VU8(small: byte)
    | VU32(word: nat)
    | VU64(long: nat)
    | VString(text: seq<byte>)
    | VRest(remainder: seq<byte>)
    | VNames(names: seq<seq<byte>>)
    | VInt(number: int)

  /** `tags` are the message numbers of the "sshtype" tag of the first field. */
  datatype Schema = Schema(tags: seq<byte>, fields: seq<FieldType>)

  datatype Error = ParseError | UnexpectedType | ShortRead

  datatype Result<+T> = Ok(value: T) | Err(error: Error)

  const U64_MODULUS: int := U32_MODULUS * U32_MODULUS
  const COMMA: byte := 44

  predicate Typed(t: FieldType, v: Value)
  {
    match t
    case TBool => v.VBool?
    case TArray(n) => v.VArray? && |v.octets| == n
    case TU8 => v.VU8?
    case TU32 => v.VU32? && v.word < U32_MODULUS
    case TU64 => v.VU64? && v.long < U64_MODULUS
    case TString => v.VString?
    case TRest => v.VRest?
    case TNames => v.VNames?
    case TInt => v.VInt?
  }

  predicate AllTyped(ts: seq<FieldType>, vs: seq<Value>)
  {
    |ts| == |vs| && forall i :: 0 <= i < |ts| ==> Typed(ts[i], vs[i])
  }

  /** A field tagged "rest" takes everything that is left, so it can only come last. */
  predicate RestOnlyLast(ts: seq<FieldType>)
  {
    forall i :: 0 <= i < |ts| - 1 ==> !ts[i].TRest?
  }

  // ---- Name lists ----

  function Join(names: seq<seq<byte>>): (r: seq<byte>)
    ensures |names| >= 2 ==> r != []
  {
    if names == [] then []
    else if |names| == 1 then names[0]
    else names[0] + [COMMA] + Join(names[1..])
  }

  /** Cuts at every comma; the pieces contain none. */
  function Split(s: seq<byte>): (r: seq<seq<byte>>)
    ensures r != []
    ensures forall i :: 0 <= i < |r| ==> COMMA !in r[i]
  {
    if s == [] then [[]]
    else
      var tail := Split(s[1..]);
      if s[0] == COMMA then [[]] + tail else [[s[0]] + tail[0]] + tail[1..]
  }

  function ParseNames(contents: seq<byte>): seq<seq<byte>>
  {
    if contents == [] then [] else Split(contents)
  }

  predicate NamesOk(names: seq<seq<byte>>)
  {
    (forall i :: 0 <= i < |names| ==> COMMA !in names[i]) && names != [[]]
  }

  /** Section 5 of RFC 4251: names with a comma, the octet 44, between them. */
  lemma {:induction false} JoinOctets(names: seq<seq<byte>>, last: seq<byte>)
    ensures Join([]) == [] && Join([last]) == last
    ensures names != [] ==> Join(names + [last]) == Join(names) + [44] + last
  {
    if names != [] {
      assert (names + [last])[1..] == names[1..] + [last];
      JoinOctets(names[1..], last);
      if |names| == 1 {
        assert names[1..] + [last] == [last] && names == [names[0]];
      } else {
        assert names[0] + [44] + (Join(names[1..]) + [44] + last) == names[0] + [44] + Join(names[1..]) + [44] + last;
      }
    }
  }

  lemma {:induction false} SplitPiece(piece: seq<byte>, tail: seq<byte>)
    requires COMMA !in piece
    ensures Split(piece) == [piece]
    ensures Split(piece + [COMMA] + tail) == [piece] + Split(tail)
  {
    if piece == [] {
      assert piece + [COMMA] + tail == [COMMA] + tail;
      assert ([COMMA] + tail)[1..] == tail;
    } else {
      SplitPiece(piece[1..], tail);
      assert (piece + [COMMA] + tail)[1..] == piece[1..] + [COMMA] + tail;
      assert [piece[0]] + piece[1..] == piece;
    }
  }

  lemma {:induction false} SplitJoin(names: seq<seq<byte>>)
    requires names != [] && forall i :: 0 <= i < |names| ==> COMMA !in names[i]
    ensures Split(Join(names)) == names
  {
    if |names| == 1 {
      SplitPiece(names[0], []);
    } else {
      SplitJoin(names[1..]);
      SplitPiece(names[0], Join(names[1..]));
    }
  }

  /** Which name lists survive: comma-free names, and not the list of one empty name. */
  lemma ParseJoinNames(names: seq<seq<byte>>)
    ensures ParseNames(Join(names)) == names <==> NamesOk(names)
  {
    if NamesOk(names) && names != [] {
      SplitJoin(names);
      if |names| == 1 {
        assert names == [names[0]];
      }
    }
  }

  lemma {:induction false} JoinSplit(s: seq<byte>)
    ensures Join(Split(s)) == s
  {
    if s != [] {
      JoinSplit(s[1..]);
      var tail := Split(s[1..]);
      if s[0] == COMMA {
        assert ([[]] + tail)[1..] == tail;
      } else {
        assert ([[s[0]] + tail[0]] + tail[1..])[1..] == tail[1..];
      }
      assert s == [s[0]] + s[1..];
    }
  }

  /** Different contents never parse to the same list. */
  lemma JoinParsed(contents: seq<byte>)
    ensures Join(ParseNames(contents)) == contents
  {
    JoinSplit(contents);
  }

  // ---- Fields ----

  function PutU64(n: nat): (r: seq<byte>)
    ensures |r| == 8
  {
    PutU32(n / U32_MODULUS) + PutU32(n)
  }

  function EncodeField(v: Value): (r: seq<byte>)
  {
    match v
    case VBool(b) => [if b then 1 else 0]
    case VArray(s) => s
    case VU8(n) => [n]
    case VU32(n) => PutU32(n)
    case VU64(n) => PutU64(n)
    case VString(s) => EncodeString(s)
    case VRest(s) => s
    case VNames(ns) => EncodeString(Join(ns))
    case VInt(n) => EncodeInt(n)
  }

  function ParseField(t: FieldType, data: seq<byte>): (r: Result<(Value, seq<byte>)>)
    ensures r.Ok? ==> |r.value.1| <= |data|
  {
    match t
    case TBool => if |data| < 1 then Err(ShortRead) else Ok((VBool(data[0] != 0), data[1..]))
    case TArray(n) => if |data| < n then Err(ShortRead) else Ok((VArray(data[..n]), data[n..]))
    case TU8 => if |data| < 1 then Err(ShortRead) else Ok((VU8(data[0]), data[1..]))
    case TU32 => if |data| < 4 then Err(ShortRead) else Ok((VU32(GetU32(data)), data[4..]))
    case TU64 =>
      if |data| < 8 then Err(ShortRead)
      else Ok((VU64(GetU32(data) * U32_MODULUS + GetU32(data[4..])), data[8..]))
    case TString =>
      (match ParseString(data)
       case Short => Err(ShortRead)
       case Parsed(s, rest) => Ok((VString(s), rest)))
    case TRest => Ok((VRest(data), []))
    case TNames =>
      (match ParseString(data)
       case Short => Err(ShortRead)
       case Parsed(s, rest) => Ok((VNames(ParseNames(s)), rest)))
    case TInt =>
      match ParseInt(data)
      case Short => Err(ShortRead)
      case Parsed(n, rest) => Ok((VInt(n), rest))
  }

  /** What a marshalled value is read back as. */
  function Reread(v: Value): Value
  {
    if v.VNames? then VNames(ParseNames(Join(v.names))) else v
  }

  lemma ParseEncodedWord(n: nat, tail: seq<byte>)
    requires n < U32_MODULUS
    ensures ParseField(TU32, PutU32(n) + tail) == Ok((VU32(n), tail))
  {
    GetPutU32(n, tail);
  }

  lemma ParseEncodedLong(n: nat, tail: seq<byte>)
    requires n < U64_MODULUS
    ensures ParseField(TU64, PutU64(n) + tail) == Ok((VU64(n), tail))
  {
    var hi, lo := n / U32_MODULUS, n % U32_MODULUS;
    var data := PutU64(n) + tail;
    assert data == PutU32(hi) + (PutU32(n) + tail);
    GetPutU32(hi, PutU32(n) + tail);
    GetPutU32(n, tail);
    assert data[8..] == data[4..][4..];
    assert n == hi * U32_MODULUS + lo;
  }

  lemma ParseEncodedText(text: seq<byte>, tail: seq<byte>)
    requires |EncodeString(text) + tail| < U32_MODULUS
    ensures ParseField(TString, EncodeString(text) + tail) == Ok((VString(text), tail))
    ensures ParseField(TNames, EncodeString(text) + tail) == Ok((VNames(ParseNames(text)), tail))
    ensures ParseField(TInt, EncodeString(text) + tail) == Ok((VInt(IntValue(text)), tail))
  {
    ParseEncodeShort(text, tail);
  }

  lemma ParseEncodedOctet(v: Value, tail: seq<byte>)
    requires v.VBool? || v.VU8?
    ensures ParseField(if v.VBool? then TBool else TU8, EncodeField(v) + tail) == Ok((v, tail))
  {
    assert (EncodeField(v) + tail)[1..] == tail;
  }

  /** Every field is consumed exactly; only a name list can come back changed. */
  lemma ParseEncodedField(t: FieldType, v: Value, tail: seq<byte>)
    requires Typed(t, v)
    requires t.TRest? ==> tail == []
    requires |EncodeField(v) + tail| < U32_MODULUS
    ensures ParseField(t, EncodeField(v) + tail) == Ok((Reread(v), tail))
  {
    match v
    case VU32(n) => ParseEncodedWord(n, tail);
    case VU64(n) => ParseEncodedLong(n, tail);
    case VRest(r) => assert r + tail == r;
    case VArray(s) => assert (s + tail)[..|s|] == s && (s + tail)[|s|..] == tail;
    case VBool(_) => ParseEncodedOctet(v, tail);
    case VU8(_) => ParseEncodedOctet(v, tail);
    case VString(text) => ParseEncodedText(text, tail);
    case VNames(names) => ParseEncodedText(Join(names), tail);
    case VInt(n) =>
      ParseEncodedText(IntContents(n), tail);
      IntValueOfContents(n);
  }

  // ---- Structures ----

  function EncodeFields(vs: seq<Value>): seq<byte>
  {
    if vs == [] then [] else EncodeField(vs[0]) + EncodeFields(vs[1..])
  }

  /** One field after the other. */
  lemma EncodeFieldsUpTo(vs: seq<Value>, k: nat)
    requires k < |vs|
    ensures EncodeFields(vs[..k + 1]) == EncodeFields(vs[..k]) + EncodeField(vs[k])
  {
    assert vs[..k + 1] == vs[..k] + [vs[k]];
    EncodeFieldsAppend(vs[..k], vs[k]);
  }

  /** The encoding of a list is that of its first `n` values and then that of the others. */
  lemma {:induction false} EncodeFieldsSplit(vs: seq<Value>, ws: seq<Value>)
    ensures EncodeFields(vs + ws) == EncodeFields(vs) + EncodeFields(ws)
  {
    hide EncodeField;
    if vs == [] {
      assert vs + ws == ws;
    } else {
      assert (vs + ws)[1..] == vs[1..] + ws;
      EncodeFieldsSplit(vs[1..], ws);
    }
  }

  lemma FourFields(vs: seq<Value>)
    requires |vs| == 4
    ensures EncodeFields(vs) == EncodeField(vs[0]) + EncodeField(vs[1]) + EncodeField(vs[2]) + EncodeField(vs[3])
  {
    hide EncodeField;
    assert vs[..0] == [] && vs[..4] == vs && [] + EncodeField(vs[0]) == EncodeField(vs[0]);
    EncodeFieldsUpTo(vs, 0);
    EncodeFieldsUpTo(vs, 1);
    EncodeFieldsUpTo(vs, 2);
    EncodeFieldsUpTo(vs, 3);
  }

  lemma EightFields(vs: seq<Value>)
    requires |vs| == 8
    ensures EncodeFields(vs) == EncodeField(vs[0]) + EncodeField(vs[1]) + EncodeField(vs[2]) + EncodeField(vs[3])
                                + EncodeField(vs[4]) + EncodeField(vs[5]) + EncodeField(vs[6]) + EncodeField(vs[7])
  {
    hide EncodeField;
    assert vs[..0] == [] && vs[..8] == vs && [] + EncodeField(vs[0]) == EncodeField(vs[0]);
    for k := 0 to 8
      invariant forall i :: 0 <= i < k ==> EncodeFields(vs[..i + 1]) == EncodeFields(vs[..i]) + EncodeField(vs[i])
    {
      EncodeFieldsUpTo(vs, k);
    }
    assert EncodeFields(vs[..1]) == EncodeField(vs[0]);
    assert EncodeFields(vs[..2]) == EncodeFields(vs[..1]) + EncodeField(vs[1]);
    assert EncodeFields(vs[..3]) == EncodeFields(vs[..2]) + EncodeField(vs[2]);
    assert EncodeFields(vs[..4]) == EncodeFields(vs[..3]) + EncodeField(vs[3]);
    assert EncodeFields(vs[..5]) == EncodeFields(vs[..4]) + EncodeField(vs[4]);
    assert EncodeFields(vs[..6]) == EncodeFields(vs[..5]) + EncodeField(vs[5]);
    assert EncodeFields(vs[..7]) == EncodeFields(vs[..6]) + EncodeField(vs[6]);
    assert EncodeFields(vs[..8]) == EncodeFields(vs[..7]) + EncodeField(vs[7]);
  }

  function Marshal(schema: Schema, vs: seq<Value>): seq<byte>
  {
    schema.tags[..if schema.tags == [] then 0 else 1] + EncodeFields(vs)
  }

  function ParseFields(ts: seq<FieldType>, data: seq<byte>): Result<(seq<Value>, seq<byte>)>
  {
    if ts == [] then Ok(([], data))
    else
      match ParseField(ts[0], data)
      case Err(e) => Err(e)
      case Ok((v, rest)) =>
        match ParseFields(ts[1..], rest)
        case Err(e) => Err(e)
        case Ok((vs, left)) => Ok(([v] + vs, left))
  }

  function Unmarshal(schema: Schema, data: seq<byte>): Result<seq<Value>>
  {
    if data == [] then Err(ParseError)
    else if schema.tags != [] && (data[0] == 0 || data[0] !in schema.tags) then Err(UnexpectedType)
    else
      match ParseFields(schema.fields, if schema.tags == [] then data else data[1..])
      case Err(e) => Err(e)
      case Ok((vs, left)) => if left == [] then Ok(vs) else Err(ParseError)
  }

  function RereadAll(vs: seq<Value>): (r: seq<Value>)
    ensures |r| == |vs|
    ensures forall i :: 0 <= i < |vs| ==> r[i] == Reread(vs[i])
  {
    seq(|vs|, i requires 0 <= i < |vs| => Reread(vs[i]))
  }

  lemma ParseFieldsStep(ts: seq<FieldType>, data: seq<byte>, v: Value, rest: seq<byte>, vs: seq<Value>)
    requires ts != [] && ParseField(ts[0], data) == Ok((v, rest)) && ParseFields(ts[1..], rest) == Ok((vs, []))
    ensures ParseFields(ts, data) == Ok(([v] + vs, []))
  {
  }

  lemma ParseFirstField(ts: seq<FieldType>, vs: seq<Value>)
    requires AllTyped(ts, vs) && RestOnlyLast(ts) && ts != []
    requires |EncodeFields(vs)| < U32_MODULUS
    ensures ParseField(ts[0], EncodeFields(vs)) == Ok((Reread(vs[0]), EncodeFields(vs[1..])))
  {
    var tail := EncodeFields(vs[1..]);
    assert Typed(ts[0], vs[0]);
    if ts[0].TRest? {
      assert vs[1..] == [];
    }
    ParseEncodedField(ts[0], vs[0], tail);
  }

  lemma EncodeFieldsShrink(vs: seq<Value>)
    requires vs != []
    ensures |EncodeFields(vs[1..])| <= |EncodeFields(vs)|
  {
  }

  lemma {:induction false} ParseEncodedFields(ts: seq<FieldType>, vs: seq<Value>)
    requires AllTyped(ts, vs) && RestOnlyLast(ts)
    requires |EncodeFields(vs)| < U32_MODULUS
    ensures ParseFields(ts, EncodeFields(vs)) == Ok((RereadAll(vs), []))
  {
    hide ParseField, EncodeField, Typed, Reread;
    if ts == [] {
      assert RereadAll(vs) == [];
    } else {
      ParseFirstField(ts, vs);
      EncodeFieldsShrink(vs);
      ParseEncodedFields(ts[1..], vs[1..]);
      ParseFieldsStep(ts, EncodeFields(vs), Reread(vs[0]), EncodeFields(vs[1..]), RereadAll(vs[1..]));
      assert RereadAll(vs) == [Reread(vs[0])] + RereadAll(vs[1..]);
    }
  }

  predicate FieldOk(v: Value)
  {
    v.VNames? ==> NamesOk(v.names)
  }

  /** A length-prefixed field and its contents. */
  predicate Prefixed(v: Value)
  {
    v.VString? || v.VNames? || v.VInt?
  }

  function ContentsOf(v: Value): seq<byte>
    requires Prefixed(v)
  {
    match v
    case VString(s) => s
    case VNames(ns) => Join(ns)
    case VInt(n) => IntContents(n)
  }

  /** The field comes back when `tail` follows it: its length fits in 32 bits, and the length test, which sees
      only the low 32 bits of what is left, still sees all of it. */
  predicate FieldFits(v: Value, tail: seq<byte>)
  {
    && FieldOk(v)
    && (Prefixed(v) ==> Counted(ContentsOf(v), tail))
  }

  predicate AllFit(vs: seq<Value>)
  {
    vs == [] || (FieldFits(vs[0], EncodeFields(vs[1..])) && AllFit(vs[1..]))
  }

  lemma EncodeIsPrefixed(v: Value)
    requires Prefixed(v)
    ensures EncodeField(v) == EncodeString(ContentsOf(v))
  {
  }

  /** What contents `q` are read as in a field of the kind of `v`. */
  function ReadAs(v: Value, q: seq<byte>): Value
    requires Prefixed(v)
  {
    match v
    case VString(_) => VString(q)
    case VNames(_) => VNames(ParseNames(q))
    case VInt(_) => VInt(IntValue(q))
  }

  /** A value is read from its own contents if its names allow it, and never from shorter ones. */
  lemma ReadAsItself(v: Value, q: seq<byte>)
    requires Prefixed(v)
    ensures ReadAs(v, ContentsOf(v)) == v <==> FieldOk(v)
    ensures ReadAs(v, q) == v ==> |q| >= |ContentsOf(v)|
  {
    hide Join, ParseNames, IntValue, IntContents, TwosComplement, NamesOk;
    match v
    case VString(_) =>
    case VNames(names) =>
      ParseJoinNames(names);
      JoinParsed(q);
    case VInt(n) =>
      IntValueOfContents(n);
      IntValueIsTwosComplement(q);
      IntContentsShortest(TwosComplement(q), q);
  }

  function KindOf(v: Value): FieldType
    requires Prefixed(v)
  {
    if v.VString? then TString else if v.VNames? then TNames else TInt
  }

  lemma ParseKind(v: Value, data: seq<byte>)
    requires Prefixed(v)
    ensures ParseField(KindOf(v), data)
         == match ParseString(data)
            case Short => Err(ShortRead)
            case Parsed(q, rest) => Ok((ReadAs(v, q), rest))
  {
    hide ParseString, ParseNames, IntValue;
  }

  lemma ParseStringField(v: Value, tail: seq<byte>)
    requires Prefixed(v)
    ensures var r := ParseField(KindOf(v), EncodeField(v) + tail);
            && (r.Ok? && r.value.0 == v <==> FieldFits(v, tail))
            && (FieldFits(v, tail) ==> r == Ok((v, tail)))
  {
    hide ParseString, EncodeString, ParseField, EncodeField, ReadAs, ContentsOf, KindOf, FieldOk, Counted;
    EncodeIsPrefixed(v);
    var s := ContentsOf(v);
    ParseKind(v, EncodeField(v) + tail);
    ReadAsItself(v, s);
    ParseEncodeString(s, tail);
    var p := ParseString(EncodeString(s) + tail);
    if p.Parsed? {
      ReadAsItself(v, p.value);
    }
  }

  lemma ParseFieldExact(t: FieldType, v: Value, tail: seq<byte>)
    requires Typed(t, v) && (t.TRest? ==> tail == [])
    ensures var r := ParseField(t, EncodeField(v) + tail);
            && (r.Ok? && r.value.0 == v <==> FieldFits(v, tail))
            && (FieldFits(v, tail) ==> r == Ok((v, tail)))
  {
    match v
    case VU32(n) => ParseEncodedWord(n, tail);
    case VU64(n) => ParseEncodedLong(n, tail);
    case VRest(r) => assert r + tail == r;
    case VArray(s) => assert (s + tail)[..|s|] == s && (s + tail)[|s|..] == tail;
    case VBool(_) => ParseEncodedOctet(v, tail);
    case VU8(_) => ParseEncodedOctet(v, tail);
    case _ => ParseStringField(v, tail);
  }

  lemma {:induction false} ParseFieldsExact(ts: seq<FieldType>, vs: seq<Value>)
    requires AllTyped(ts, vs) && RestOnlyLast(ts)
    ensures ParseFields(ts, EncodeFields(vs)) == Ok((vs, [])) <==> AllFit(vs)
  {
    hide ParseField, EncodeField, FieldFits, Typed;
    if ts != [] {
      var tail := EncodeFields(vs[1..]);
      assert Typed(ts[0], vs[0]);
      if ts[0].TRest? {
        assert vs[1..] == [];
      }
      ParseFieldExact(ts[0], vs[0], tail);
      ParseFieldsExact(ts[1..], vs[1..]);
      assert vs == [vs[0]] + vs[1..];
    }
  }

  /** The exact condition under which a structure survives the trip. */
  predicate Survives(schema: Schema, vs: seq<Value>)
  {
    Marshal(schema, vs) != [] && (schema.tags != [] ==> schema.tags[0] != 0) && AllFit(vs)
  }

  /** Below 2^32 octets only name lists can fail to fit. */
  lemma {:induction false} FitWhenSmall(vs: seq<Value>)
    requires |EncodeFields(vs)| < U32_MODULUS
    ensures AllFit(vs) <==> forall i :: 0 <= i < |vs| ==> FieldOk(vs[i])
  {
    hide NamesOk, EncodeString;
    if vs != [] {
      FitWhenSmall(vs[1..]);
      if Prefixed(vs[0]) {
        EncodeIsPrefixed(vs[0]);
        var n := |ContentsOf(vs[0])|;
        assert (n + |EncodeFields(vs[1..])|) % U32_MODULUS == n + |EncodeFields(vs[1..])|;
      }
      assert (forall i :: 0 <= i < |vs| ==> FieldOk(vs[i]))
        <==> FieldOk(vs[0]) && forall i :: 0 <= i < |vs[1..]| ==> FieldOk(vs[1..][i]) by {
        TailOk(vs);
      }
    }
  }

  lemma TailOk(vs: seq<Value>)
    requires vs != []
    ensures (forall i :: 0 <= i < |vs| ==> FieldOk(vs[i]))
        <==> FieldOk(vs[0]) && forall i :: 0 <= i < |vs[1..]| ==> FieldOk(vs[1..][i])
  {
    hide FieldOk;
    if FieldOk(vs[0]) && forall i :: 0 <= i < |vs[1..]| ==> FieldOk(vs[1..][i]) {
      forall i | 0 <= i < |vs|
        ensures FieldOk(vs[i])
      {
        if i > 0 {
          assert vs[i] == vs[1..][i - 1];
        }
      }
    }
  }

  /** Unmarshalling inverts marshalling for every schema and value of any length, exactly when `Survives`. */
  lemma UnmarshalInvertsMarshal(schema: Schema, vs: seq<Value>)
    requires AllTyped(schema.fields, vs) && RestOnlyLast(schema.fields)
    ensures Unmarshal(schema, Marshal(schema, vs)) == Ok(vs) <==> Survives(schema, vs)
  {
    hide AllTyped, RestOnlyLast, ParseFields, EncodeFields, AllFit;
    var data := Marshal(schema, vs);
    ParseFieldsExact(schema.fields, vs);
    assert (if schema.tags == [] then data else data[1..]) == EncodeFields(vs);
  }

  lemma FieldErrors(t: FieldType, data: seq<byte>)
    ensures ParseField(t, data).Err? ==> ParseField(t, data) == Err(ShortRead)
  {
  }

  lemma {:induction false} FieldsErrors(ts: seq<FieldType>, data: seq<byte>)
    ensures ParseFields(ts, data).Err? ==> ParseFields(ts, data) == Err(ShortRead)
  {
    hide ParseField;
    if ts != [] {
      FieldErrors(ts[0], data);
      if ParseField(ts[0], data).Ok? {
        FieldsErrors(ts[1..], ParseField(ts[0], data).value.1);
      }
    }
  }

  /** Why a packet is refused: its type, first of all; then a field that is not all there; then what is left over. */
  lemma UnmarshalErrors(schema: Schema, data: seq<byte>)
    ensures var r := Unmarshal(schema, data);
            var typed := data != [] && (schema.tags == [] || (data[0] != 0 && data[0] in schema.tags));
            && (r == Err(UnexpectedType) <==> data != [] && !typed)
            && (r == Err(ShortRead) <==> typed && ParseFields(schema.fields, if schema.tags == [] then data else data[1..]).Err?)
            && (r.Err? && r.error == ParseError ==> data == [] || typed)
  {
    if data != [] {
      FieldsErrors(schema.fields, if schema.tags == [] then data else data[1..]);
    }
  }

  /** Structures that survive and have the same octets are equal. */
  lemma MarshalInjective(schema: Schema, vs: seq<Value>, ws: seq<Value>)
    requires AllTyped(schema.fields, vs) && AllTyped(schema.fields, ws) && RestOnlyLast(schema.fields)
    requires Survives(schema, vs) && Survives(schema, ws)
    requires Marshal(schema, vs) == Marshal(schema, ws)
    ensures vs == ws
  {
    hide Survives, Marshal, Unmarshal, AllTyped, RestOnlyLast;
    UnmarshalInvertsMarshal(schema, vs);
    UnmarshalInvertsMarshal(schema, ws);
  }

  lemma {:induction false} EncodeByReread(ts: seq<FieldType>, vs: seq<Value>, ws: seq<Value>)
    requires AllTyped(ts, vs) && AllTyped(ts, ws) && RereadAll(vs) == RereadAll(ws)
    ensures EncodeFields(vs) == EncodeFields(ws)
  {
    if vs != [] {
      assert RereadAll(vs)[0] == Reread(vs[0]) && RereadAll(ws)[0] == Reread(ws[0]);
      assert Typed(ts[0], vs[0]) && Typed(ts[0], ws[0]);
      if vs[0].VNames? {
        JoinParsed(Join(vs[0].names));
        JoinParsed(Join(ws[0].names));
      }
      forall i | 0 <= i < |vs| - 1
        ensures RereadAll(vs[1..])[i] == RereadAll(ws[1..])[i]
      {
        assert RereadAll(vs)[i + 1] == Reread(vs[i + 1]) && RereadAll(ws)[i + 1] == Reread(ws[i + 1]);
      }
      EncodeByReread(ts[1..], vs[1..], ws[1..]);
    }
  }

  /** Which structures share their octets: those that differ only in how their name lists cut the same text. */
  lemma MarshalEqualIff(schema: Schema, vs: seq<Value>, ws: seq<Value>)
    requires AllTyped(schema.fields, vs) && AllTyped(schema.fields, ws) && RestOnlyLast(schema.fields)
    requires |EncodeFields(vs)| < U32_MODULUS
    ensures Marshal(schema, vs) == Marshal(schema, ws) <==> RereadAll(vs) == RereadAll(ws)
  {
    hide AllTyped, EncodeFields, RestOnlyLast;
    if RereadAll(vs) == RereadAll(ws) {
      EncodeByReread(schema.fields, vs, ws);
    }
    if Marshal(schema, vs) == Marshal(schema, ws) {
      var k := if schema.tags == [] then 0 else 1;
      assert EncodeFields(vs) == Marshal(schema, vs)[k..] == EncodeFields(ws);
      ParseEncodedFields(schema.fields, vs);
      ParseEncodedFields(schema.fields, ws);
    }
  }

  lemma ParsedFieldTyped(t: FieldType, data: seq<byte>)
    ensures ParseField(t, data).Ok? ==> Typed(t, ParseField(t, data).value.0)
  {
    if (t.TU32? || t.TU64?) && |data| >= 4 {
      FromBytesBound(data[..4]);
    }
    if t.TU64? && |data| >= 8 {
      FromBytesBound(data[4..][..4]);
    }
  }

  lemma {:induction false} ParsedFieldsTyped(ts: seq<FieldType>, data: seq<byte>)
    ensures ParseFields(ts, data).Ok? ==> AllTyped(ts, ParseFields(ts, data).value.0)
  {
    hide Typed, ParseField;
    if ts != [] && ParseField(ts[0], data).Ok? {
      ParsedFieldTyped(ts[0], data);
      ParsedFieldsTyped(ts[1..], ParseField(ts[0], data).value.1);
    }
  }

  /** Whatever the octets, a structure that unmarshals has the types of its schema. */
  lemma UnmarshalTyped(schema: Schema, data: seq<byte>)
    ensures Unmarshal(schema, data).Ok? ==> AllTyped(schema.fields, Unmarshal(schema, data).value)
  {
    hide AllTyped, ParseFields;
    if data != [] {
      ParsedFieldsTyped(schema.fields, if schema.tags == [] then data else data[1..]);
    }
  }

  // ---- The loops of the source ----

  lemma {:induction false} EncodeFieldsAppend(vs: seq<Value>, v: Value)
    ensures EncodeFields(vs + [v]) == EncodeFields(vs) + EncodeField(v)
  {
    if vs == [] {
      assert [v][1..] == [] && EncodeFields([]) == [];
      assert EncodeFields([v]) == EncodeField(v) + [];
    } else {
      assert (vs + [v])[1..] == vs[1..] + [v];
      EncodeFieldsAppend(vs[1..], v);
    }
  }

  method MarshalNames(names: seq<seq<byte>>) returns (out: seq<byte>)
    ensures out == EncodeString(Join(names))
  {
    var body: seq<byte> := [];
    if names != [] {
      JoinRestIsJoin(names, 0);
      assert names[0..] == names;
    }
    for j := 0 to |names|
      invariant body + JoinRest(names, j) == Join(names)
    {
      body := body + (if j != 0 then [COMMA] else []) + names[j];
    }
    assert JoinRest(names, |names|) == [];
    out := PutU32(|body|) + body;
  }

  /** What is still to be written before name `j`. */
  ghost function JoinRest(names: seq<seq<byte>>, j: nat): seq<byte>
    requires j <= |names|
    decreases |names| - j
  {
    if j == |names| then []
    else (if j != 0 then [COMMA] else []) + names[j] + JoinRest(names, j + 1)
  }

  lemma {:induction false} JoinRestIsJoin(names: seq<seq<byte>>, j: nat)
    requires j < |names|
    ensures JoinRest(names, j) == (if j != 0 then [COMMA] else []) + Join(names[j..])
    decreases |names| - j
  {
    if j + 1 == |names| {
      assert names[j..] == [names[j]];
      assert JoinRest(names, j + 1) == [];
    } else {
      JoinRestIsJoin(names, j + 1);
      assert names[j..][1..] == names[j + 1..];
      var sep, tail := if j != 0 then [COMMA] else [], Join(names[j + 1..]);
      assert Join(names[j..]) == names[j] + [COMMA] + tail;
      assert sep + names[j] + ([COMMA] + tail) == sep + (names[j] + [COMMA] + tail);
    }
  }

  method MarshalField(v: Value) returns (out: seq<byte>)
    ensures out == EncodeField(v)
  {
    match v {
      case VNames(names) =>
        out := MarshalNames(names);
      case VInt(n) =>
        var buf := new byte[IntLength(n)];
        IntLengthExact(n);
        var end := MarshalInt(buf, 0, n);
        out := buf[..];
      case _ =>
        out := EncodeField(v);
    }
  }

  lemma EncodeNoFields()
    ensures EncodeFields([]) == []
  {
  }

  method MarshalStruct(schema: Schema, vs: seq<Value>) returns (out: seq<byte>)
    ensures out == Marshal(schema, vs)
  {
    hide EncodeField, EncodeFields;
    EncodeNoFields();
    out := [];
    if |schema.tags| > 0 {
      out := [schema.tags[0]];
    }
    ghost var tag := out;
    assert tag == schema.tags[..if schema.tags == [] then 0 else 1];
    ghost var done: seq<byte> := [];
    for i := 0 to |vs|
      invariant done == EncodeFields(vs[..i])
      invariant out == tag + done
    {
      var field := MarshalField(vs[i]);
      out := out + field;
      EncodeFieldsAppend(vs[..i], vs[i]);
      done := done + field;
      assert vs[..i + 1] == vs[..i] + [vs[i]];
    }
    assert vs[..|vs|] == vs;
  }

  method UnmarshalStruct(schema: Schema, packet: seq<byte>) returns (r: Result<seq<Value>>)
    ensures r == Unmarshal(schema, packet)
  {
    if |packet| == 0 {
      return Err(ParseError);
    }
    var data := packet;
    if |schema.tags| > 0 {
      var goodType := false;
      for k := 0 to |schema.tags|
        invariant goodType <==> data[0] > 0 && data[0] in schema.tags[..k]
      {
        if schema.tags[k] > 0 && data[0] == schema.tags[k] {
          goodType := true;
        }
      }
      assert schema.tags[..|schema.tags|] == schema.tags;
      if !goodType {
        return Err(UnexpectedType);
      }
      data := data[1..];
    }
    ghost var body := data;
    var vs: seq<Value> := [];
    var ts := schema.fields;
    assert ts[0..] == ts;
    PrefixEmpty(ParseFields(ts, body));
    for i := 0 to |ts|
      invariant ParseFields(ts, body) == AfterPrefix(vs, ParseFields(ts[i..], data))
    {
      var field := ParseField(ts[i], data);
      if field.Err? {
        return Err(field.error);
      }
      assert ts[i..][1..] == ts[i + 1..];
      PrefixShift(vs, field.value.0, ParseFields(ts[i + 1..], field.value.1));
      vs, data := vs + [field.value.0], field.value.1;
    }
    assert ts[|ts|..] == [] && vs + [] == vs;
    if |data| != 0 {
      return Err(ParseError);
    }
    return Ok(vs);
  }

  ghost function AfterPrefix(vs: seq<Value>, r: Result<(seq<Value>, seq<byte>)>): Result<(seq<Value>, seq<byte>)>
  {
    match r
    case Err(e) => Err(e)
    case Ok((ws, left)) => Ok((vs + ws, left))
  }

  lemma PrefixEmpty(r: Result<(seq<Value>, seq<byte>)>)
    ensures AfterPrefix([], r) == r
  {
    if r.Ok? {
      assert [] + r.value.0 == r.value.0;
    }
  }

  lemma PrefixShift(vs: seq<Value>, v: Value, r: Result<(seq<Value>, seq<byte>)>)
    ensures AfterPrefix(vs, AfterPrefix([v], r)) == AfterPrefix(vs + [v], r)
  {
    if r.Ok? {
      assert vs + ([v] + r.value.0) == vs + [v] + r.value.0;
    }
  }

  // ---- Data signed for user authentication (section 7 of RFC 4252) ----

  const USERAUTH_REQUEST: byte := 50

  const AUTH_SCHEMA := Schema([], [TString, TU8, TString, TString, TString, TBool, TString, TString])

  function AuthValues(session: seq<byte>, user: seq<byte>, service: seq<byte>, authMethod: seq<byte>,
                      algo: seq<byte>, pubKey: seq<byte>): seq<Value>
  {
    [VString(session), VU8(USERAUTH_REQUEST), VString(user), VString(service), VString(authMethod),
     VBool(true), VString(algo), VString(pubKey)]
  }

  function SignedData(session: seq<byte>, user: seq<byte>, service: seq<byte>, authMethod: seq<byte>,
                      algo: seq<byte>, pubKey: seq<byte>): seq<byte>
  {
    Marshal(AUTH_SCHEMA, AuthValues(session, user, service, authMethod, algo, pubKey))
  }

  /** Section 7 of RFC 4252: the session identifier as a string, the octet 50, user name, service name, method name, the
      octet 1 for TRUE, algorithm name, public key. */
  lemma SignedOctets(session: seq<byte>, user: seq<byte>, service: seq<byte>, authMethod: seq<byte>,
                     algo: seq<byte>, pubKey: seq<byte>)
    ensures SignedData(session, user, service, authMethod, algo, pubKey)
         == EncodeString(session) + [50] + EncodeString(user) + EncodeString(service) + EncodeString(authMethod)
            + [1] + EncodeString(algo) + EncodeString(pubKey)
  {
    hide EncodeString, EncodeFields;
    EightFields(AuthValues(session, user, service, authMethod, algo, pubKey));
  }

  /** A signature over this data binds all six parts: no other six parts give the same octets. */
  lemma SignedDataBinds(session: seq<byte>, user: seq<byte>, service: seq<byte>, authMethod: seq<byte>,
                        algo: seq<byte>, pubKey: seq<byte>,
                        session': seq<byte>, user': seq<byte>, service': seq<byte>, authMethod': seq<byte>,
                        algo': seq<byte>, pubKey': seq<byte>)
    requires |SignedData(session, user, service, authMethod, algo, pubKey)| < U32_MODULUS
    ensures
      (SignedData(session, user, service, authMethod, algo, pubKey)
       == SignedData(session', user', service', authMethod', algo', pubKey'))
      <==>
      ((session, user, service, authMethod, algo, pubKey)
       == (session', user', service', authMethod', algo', pubKey'))
  {
    var vs := AuthValues(session, user, service, authMethod, algo, pubKey);
    var ws := AuthValues(session', user', service', authMethod', algo', pubKey');
    if Marshal(AUTH_SCHEMA, vs) == Marshal(AUTH_SCHEMA, ws) {
      AuthInjective(vs, ws);
      assert vs[0] == ws[0] && vs[2] == ws[2] && vs[3] == ws[3] && vs[4] == ws[4] && vs[6] == ws[6] && vs[7] == ws[7];
    }
  }

  lemma AuthInjective(vs: seq<Value>, ws: seq<Value>)
    requires AllTyped(AUTH_SCHEMA.fields, vs) && AllTyped(AUTH_SCHEMA.fields, ws)
    requires |Marshal(AUTH_SCHEMA, vs)| < U32_MODULUS
    requires Marshal(AUTH_SCHEMA, vs) == Marshal(AUTH_SCHEMA, ws)
    ensures vs == ws
  {
    AuthSurvives(vs);
    AuthSurvives(ws);
    MarshalInjective(AUTH_SCHEMA, vs, ws);
  }

  lemma AuthSurvives(vs: seq<Value>)
    requires AllTyped(AUTH_SCHEMA.fields, vs) && |Marshal(AUTH_SCHEMA, vs)| < U32_MODULUS
    ensures Survives(AUTH_SCHEMA, vs)
  {
    var ts := AUTH_SCHEMA.fields;
    assert Typed(ts[0], vs[0]);
    assert |EncodeField(vs[0])| >= 4;
    assert |EncodeFields(vs)| >= |EncodeField(vs[0])|;
    FitWhenSmall(vs);
    forall i | 0 <= i < |vs|
      ensures FieldOk(vs[i])
    {
      assert Typed(ts[i], vs[i]) && !ts[i].TNames?;
    }
  }
}
