/** Negotiation of algorithms (section 7.1 of RFC 4253) and the keys both ends set up from it. */
module Algorithms {
  import opened Bytes
  import opened KeyMaterial
  import opened Messages
  import opened Mpint
  import opened Options

  type Name = seq<byte>
  type Names = seq<Name>

  // ---- One list against another ----

  /** `name` is the first of the client's names that the server lists. */
  ghost predicate Chosen(client: Names, server: Names, name: Name)
  {
    exists i :: IsFirst(client, server, name, i)
  }

  ghost predicate IsFirst(client: Names, server: Names, name: Name, i: nat)
  {
    i < |client| && client[i] == name && name in server && forall j :: 0 <= j < i ==> client[j] !in server
  }

  function Common(client: Names, server: Names): Option<Name>
  {
    if client == [] then None
    else if client[0] in server then Some(client[0])
    else Common(client[1..], server)
  }

  lemma {:induction false} CommonIsChosen(client: Names, server: Names, name: Name)
    ensures Common(client, server) == Some(name) <==> Chosen(client, server, name)
    ensures Common(client, server).Some? <==> exists i :: 0 <= i < |client| && client[i] in server
  {
    if client == [] {
    } else if client[0] in server {
      if client[0] == name {
        assert IsFirst(client, server, name, 0);
      }
    } else {
      CommonIsChosen(client[1..], server, name);
      if Chosen(client[1..], server, name) {
        var i :| IsFirst(client[1..], server, name, i);
        LaterFirst(client, server, name, i);
      }
      if Chosen(client, server, name) {
        var i :| IsFirst(client, server, name, i);
        EarlierFirst(client, server, name, i);
      }
    }
  }

  lemma LaterFirst(client: Names, server: Names, name: Name, i: nat)
    requires client != [] && client[0] !in server && IsFirst(client[1..], server, name, i)
    ensures IsFirst(client, server, name, i + 1)
  {
    forall j | 0 <= j < i + 1
      ensures client[j] !in server
    {
      if j > 0 {
        assert client[j] == client[1..][j - 1];
      }
    }
  }

  lemma EarlierFirst(client: Names, server: Names, name: Name, i: nat)
    requires client != [] && client[0] !in server && IsFirst(client, server, name, i)
    ensures i > 0 && IsFirst(client[1..], server, name, i - 1)
  {
    forall j | 0 <= j < i - 1
      ensures client[1..][j] !in server
    {
      assert client[1..][j] == client[j + 1];
    }
  }

  /** The nested loops stop at the first pair of equal names, client's order first. */
  method FindCommon(client: Names, server: Names) returns (r: Option<Name>)
    ensures r == Common(client, server)
    ensures r.None? <==> forall i :: 0 <= i < |client| ==> client[i] !in server
  {
    assert client[0..] == client;
    for i := 0 to |client|
      invariant Common(client, server) == Common(client[i..], server)
      invariant forall k :: 0 <= k < i ==> client[k] !in server
    {
      for j := 0 to |server|
        invariant forall k :: 0 <= k < j ==> server[k] != client[i]
      {
        if client[i] == server[j] {
          return Some(client[i]);
        }
      }
      assert client[i..][1..] == client[i + 1..];
    }
    return None;
  }

  // ---- The two offers ----

  datatype Pair = Pair(cs: Names, sc: Names)

  datatype KexInit = KexInit(cookie: seq<byte>, kex: Names, hostKey: Names, ciphers: Pair, macs: Pair,
                             compressions: Pair, languages: Pair, follows: bool, reserved: nat)

  const KEX_INIT := Schema([20], [TArray(16), TNames, TNames, TNames, TNames, TNames, TNames, TNames, TNames,
                                  TNames, TNames, TBool, TU32])

  function ToValues(k: KexInit): seq<Value>
  {
    [VArray(k.cookie), VNames(k.kex), VNames(k.hostKey), VNames(k.ciphers.cs), VNames(k.ciphers.sc),
     VNames(k.macs.cs), VNames(k.macs.sc), VNames(k.compressions.cs), VNames(k.compressions.sc),
     VNames(k.languages.cs), VNames(k.languages.sc), VBool(k.follows), VU32(k.reserved)]
  }

  predicate Shaped(vs: seq<Value>)
  {
    |vs| == 13 && vs[0].VArray? && (forall i :: 1 <= i <= 10 ==> vs[i].VNames?) && vs[11].VBool? && vs[12].VU32?
  }

  function FromValues(vs: seq<Value>): KexInit
    requires Shaped(vs)
  {
    KexInit(vs[0].octets, vs[1].names, vs[2].names, Pair(vs[3].names, vs[4].names), Pair(vs[5].names, vs[6].names),
            Pair(vs[7].names, vs[8].names), Pair(vs[9].names, vs[10].names), vs[11].flag, vs[12].word)
  }

  lemma TypedIsShaped(vs: seq<Value>)
    requires AllTyped(KEX_INIT.fields, vs)
    ensures Shaped(vs)
  {
    var ts := KEX_INIT.fields;
    assert Typed(ts[0], vs[0]) && Typed(ts[11], vs[11]) && Typed(ts[12], vs[12]);
    forall i | 1 <= i <= 10
      ensures vs[i].VNames?
    {
      assert ts[i] == TNames && Typed(ts[i], vs[i]);
    }
  }

  /** What can be sent in a packet of this kind and read back. */
  predicate Sendable(k: KexInit)
  {
    && |k.cookie| == 16 && k.reserved < U32_MODULUS
    && NamesOk(k.kex) && NamesOk(k.hostKey) && PairOk(k.ciphers) && PairOk(k.macs) && PairOk(k.compressions) && PairOk(k.languages)
    && |Marshal(KEX_INIT, ToValues(k))| < U32_MODULUS
  }

  predicate PairOk(p: Pair)
  {
    NamesOk(p.cs) && NamesOk(p.sc)
  }

  lemma OfferSurvives(k: KexInit)
    requires Sendable(k)
    ensures Unmarshal(KEX_INIT, Marshal(KEX_INIT, ToValues(k))) == Ok(ToValues(k))
  {
    hide NamesOk, EncodeFields, Unmarshal, AllFit;
    FitWhenSmall(ToValues(k));
    UnmarshalInvertsMarshal(KEX_INIT, ToValues(k));
  }

  /** Section 7.1 of RFC 4253: the octet 20, sixteen random octets, ten name lists, a flag and four octets. */
  lemma OfferOctets(k: KexInit)
    ensures Marshal(KEX_INIT, ToValues(k))
         == [20] + k.cookie
            + (NamesOctets(k.kex) + NamesOctets(k.hostKey) + NamesOctets(k.ciphers.cs) + NamesOctets(k.ciphers.sc)
               + NamesOctets(k.macs.cs) + NamesOctets(k.macs.sc) + NamesOctets(k.compressions.cs) + NamesOctets(k.compressions.sc))
            + (NamesOctets(k.languages.cs) + NamesOctets(k.languages.sc) + [if k.follows then 1 else 0] + PutU32(k.reserved))
  {
    hide NamesOctets, PutU32, EncodeFields;
    var vs := ToValues(k);
    var first, lists, last := [vs[0]], vs[1..9], vs[9..];
    assert vs == first + (lists + last);
    EncodeFieldsSplit(first, lists + last);
    EncodeFieldsSplit(lists, last);
    OneField(vs[0]);
    EightFields(lists);
    FourFields(last);
    ListOctets(k);
    Group([20], k.cookie, EncodeFields(lists), EncodeFields(last));
  }

  /** A name list is a string of its names with commas between them. */
  function NamesOctets(names: Names): seq<byte>
  {
    EncodeString(Join(names))
  }

  lemma ListOctets(k: KexInit)
    ensures EncodeField(VArray(k.cookie)) == k.cookie && EncodeField(VU32(k.reserved)) == PutU32(k.reserved)
    ensures EncodeField(VBool(k.follows)) == [if k.follows then 1 else 0]
    ensures forall names: Names {:trigger NamesOctets(names)} :: NamesOctets(names) == EncodeField(VNames(names))
  {
  }

  lemma OneField(v: Value)
    ensures EncodeFields([v]) == EncodeField(v)
  {
    assert [v][1..] == [];
    assert EncodeField(v) + [] == EncodeField(v);
  }

  lemma Group(a: seq<byte>, b: seq<byte>, c: seq<byte>, d: seq<byte>)
    ensures a + (b + (c + d)) == a + b + c + d
  {
  }

  // ---- Agreement ----

  datatype Direction = Direction(cipher: Name, mac: Name, compression: Name)
  datatype Agreement = Agreement(kex: Name, hostKey: Name, w: Direction, r: Direction)

  datatype Subject = KeyExchange | HostKey | CipherCS | CipherSC | MacCS | MacSC | CompressionCS | CompressionSC

  datatype Outcome = Agreed(algs: Agreement) | NoCommon(subject: Subject) | BadPacket

  function Agree(c: KexInit, s: KexInit): Outcome
  {
    var kex := Common(c.kex, s.kex);
    var hostKey := Common(c.hostKey, s.hostKey);
    var cipherCS := Common(c.ciphers.cs, s.ciphers.cs);
    var cipherSC := Common(c.ciphers.sc, s.ciphers.sc);
    var macCS := Common(c.macs.cs, s.macs.cs);
    var macSC := Common(c.macs.sc, s.macs.sc);
    var compCS := Common(c.compressions.cs, s.compressions.cs);
    var compSC := Common(c.compressions.sc, s.compressions.sc);
    if kex.None? then NoCommon(KeyExchange)
    else if hostKey.None? then NoCommon(HostKey)
    else if cipherCS.None? then NoCommon(CipherCS)
    else if cipherSC.None? then NoCommon(CipherSC)
    else if macCS.None? then NoCommon(MacCS)
    else if macSC.None? then NoCommon(MacSC)
    else if compCS.None? then NoCommon(CompressionCS)
    else if compSC.None? then NoCommon(CompressionSC)
    else Agreed(Agreement(kex.value, hostKey.value, Direction(cipherCS.value, macCS.value, compCS.value),
                          Direction(cipherSC.value, macSC.value, compSC.value)))
  }

  /** Agreement is on the client's first choice that the server lists, in every one of the eight lists. */
  lemma AgreedIsChosen(c: KexInit, s: KexInit, a: Agreement)
    ensures Agree(c, s) == Agreed(a) <==>
            && Chosen(c.kex, s.kex, a.kex)
            && Chosen(c.hostKey, s.hostKey, a.hostKey)
            && Chosen(c.ciphers.cs, s.ciphers.cs, a.w.cipher) && Chosen(c.ciphers.sc, s.ciphers.sc, a.r.cipher)
            && Chosen(c.macs.cs, s.macs.cs, a.w.mac) && Chosen(c.macs.sc, s.macs.sc, a.r.mac)
            && Chosen(c.compressions.cs, s.compressions.cs, a.w.compression)
            && Chosen(c.compressions.sc, s.compressions.sc, a.r.compression)
  {
    hide Common, Chosen;
    CommonIsChosen(c.kex, s.kex, a.kex);
    CommonIsChosen(c.hostKey, s.hostKey, a.hostKey);
    CommonIsChosen(c.ciphers.cs, s.ciphers.cs, a.w.cipher);
    CommonIsChosen(c.ciphers.sc, s.ciphers.sc, a.r.cipher);
    CommonIsChosen(c.macs.cs, s.macs.cs, a.w.mac);
    CommonIsChosen(c.macs.sc, s.macs.sc, a.r.mac);
    CommonIsChosen(c.compressions.cs, s.compressions.cs, a.w.compression);
    CommonIsChosen(c.compressions.sc, s.compressions.sc, a.r.compression);
  }

  /** One search after another, stopping at the first that fails. */
  method FindAgreedAlgorithms(c: KexInit, s: KexInit) returns (r: Outcome)
    ensures r == Agree(c, s)
  {
    hide Common;
    var kex := FindCommon(c.kex, s.kex);
    if kex.None? {
      return NoCommon(KeyExchange);
    }
    var hostKey := FindCommon(c.hostKey, s.hostKey);
    if hostKey.None? {
      return NoCommon(HostKey);
    }
    var cipherCS := FindCommon(c.ciphers.cs, s.ciphers.cs);
    if cipherCS.None? {
      return NoCommon(CipherCS);
    }
    var cipherSC := FindCommon(c.ciphers.sc, s.ciphers.sc);
    if cipherSC.None? {
      return NoCommon(CipherSC);
    }
    var macCS := FindCommon(c.macs.cs, s.macs.cs);
    if macCS.None? {
      return NoCommon(MacCS);
    }
    var macSC := FindCommon(c.macs.sc, s.macs.sc);
    if macSC.None? {
      return NoCommon(MacSC);
    }
    var compCS := FindCommon(c.compressions.cs, s.compressions.cs);
    if compCS.None? {
      return NoCommon(CompressionCS);
    }
    var compSC := FindCommon(c.compressions.sc, s.compressions.sc);
    if compSC.None? {
      return NoCommon(CompressionSC);
    }
    r := Agreed(Agreement(kex.value, hostKey.value, Direction(cipherCS.value, macCS.value, compCS.value),
                          Direction(cipherSC.value, macSC.value, compSC.value)));
  }

  /** What one end concludes from its own offer and the packet it received. */
  function Meet(isClient: bool, mine: KexInit, packet: seq<byte>): Outcome
  {
    UnmarshalTyped(KEX_INIT, packet);
    match Unmarshal(KEX_INIT, packet)
    case Err(_) => BadPacket
    case Ok(vs) =>
      TypedIsShaped(vs);
      var other := FromValues(vs);
      if isClient then Agree(mine, other) else Agree(other, mine)
  }

  /** Both ends conclude the same, each from its own offer and the other's packet. */
  lemma BothEndsConclude(c: KexInit, s: KexInit)
    requires Sendable(c) && Sendable(s)
    ensures Meet(true, c, Marshal(KEX_INIT, ToValues(s))) == Agree(c, s) == Meet(false, s, Marshal(KEX_INIT, ToValues(c)))
  {
    hide Agree, Marshal, Unmarshal, Sendable;
    OfferSurvives(c);
    OfferSurvives(s);
  }

  // ---- Keys ----

  /** One-letter tags for the IV, the key and the MAC key of a direction. */
  datatype Tags = Tags(iv: byte, key: byte, macKey: byte)

  const CLIENT_KEYS := Tags(65, 67, 69)
  const SERVER_KEYS := Tags(66, 68, 70)

  /** The sizes each algorithm asks for. */
  datatype Sizes = Sizes(iv: Name -> nat, key: Name -> nat, macKey: Name -> nat)

  const GCM := Ascii("aes128-gcm@openssh.com")

  /** AES-GCM authenticates by itself and is given no MAC. */
  datatype PacketCipher =
    | GcmPacketCipher(iv: seq<byte>, key: seq<byte>)
    | MacPacketCipher(cipher: Name, mac: Name, iv: seq<byte>, key: seq<byte>, macKey: seq<byte>)

  function NewPacketCipher(z: Sizes, tags: Tags, d: Direction, e: KexResult): PacketCipher
    requires e.Valid()
  {
    var iv, key := Material(e, tags.iv, z.iv(d.cipher)), Material(e, tags.key, z.key(d.cipher));
    if d.cipher == GCM then GcmPacketCipher(iv, key)
    else MacPacketCipher(d.cipher, d.mac, iv, key, Material(e, tags.macKey, z.macKey(d.mac)))
  }

  datatype Ends = Ends(reader: PacketCipher, writer: PacketCipher)

  /** Both roles take the client-to-server choice for their writer and the other for their reader. */
  function PrepareKeyChange(z: Sizes, isClient: bool, a: Agreement, e: KexResult): Ends
    requires e.Valid()
  {
    Ends(NewPacketCipher(z, if isClient then SERVER_KEYS else CLIENT_KEYS, a.r, e),
         NewPacketCipher(z, if isClient then CLIENT_KEYS else SERVER_KEYS, a.w, e))
  }

  /** Section 7.2 of RFC 4253: what goes to the server is under the letters A, C and E, what comes from it under B, D and
      F, for IV, key and MAC key, each of the size its algorithm asks for. */
  lemma Letters(z: Sizes, isClient: bool, a: Agreement, e: KexResult)
    requires e.Valid()
    ensures var ends := PrepareKeyChange(z, isClient, a, e);
            var toServer := if isClient then ends.writer else ends.reader;
            var toClient := if isClient then ends.reader else ends.writer;
            && toServer.iv == Material(e, 'A' as int, |toServer.iv|) && toServer.key == Material(e, 'C' as int, |toServer.key|)
            && toClient.iv == Material(e, 'B' as int, |toClient.iv|) && toClient.key == Material(e, 'D' as int, |toClient.key|)
            && (toServer.MacPacketCipher? ==> toServer.macKey == Material(e, 'E' as int, |toServer.macKey|))
            && (toClient.MacPacketCipher? ==> toClient.macKey == Material(e, 'F' as int, |toClient.macKey|))
            && |ends.writer.iv| == z.iv(a.w.cipher) && |ends.writer.key| == z.key(a.w.cipher)
            && |ends.reader.iv| == z.iv(a.r.cipher) && |ends.reader.key| == z.key(a.r.cipher)
            && (ends.writer.MacPacketCipher? <==> a.w.cipher != Ascii("aes128-gcm@openssh.com"))
            && (ends.reader.MacPacketCipher? <==> a.r.cipher != Ascii("aes128-gcm@openssh.com"))
            && (ends.writer.MacPacketCipher? ==> ends.writer.mac == a.w.mac && |ends.writer.macKey| == z.macKey(a.w.mac))
            && (ends.reader.MacPacketCipher? ==> ends.reader.mac == a.r.mac && |ends.reader.macKey| == z.macKey(a.r.mac))
  {
    hide Material, Ascii;
  }

  ghost predicate Matched(c: Ends, s: Ends)
  {
    c.writer == s.reader && s.writer == c.reader
  }

  /** Each reader gets what the other end's writer got exactly when both directions chose the same cipher and, unless
      that is AES-GCM, the same MAC. */
  lemma MatchedIffAlike(z: Sizes, a: Agreement, e: KexResult)
    requires e.Valid()
    ensures Matched(PrepareKeyChange(z, true, a, e), PrepareKeyChange(z, false, a, e))
            <==> a.w.cipher == a.r.cipher && (a.w.cipher == GCM || a.w.mac == a.r.mac)
  {
    hide Material, Ascii;
  }

  datatype Config = Config(kex: Names, ciphers: Names, macs: Names, compressions: Names)

  /** `sendKexInit` offers the same lists for both directions. */
  function Offer(config: Config, cookie: seq<byte>, hostKey: Names): KexInit
  {
    KexInit(cookie, config.kex, hostKey, Pair(config.ciphers, config.ciphers), Pair(config.macs, config.macs),
            Pair(config.compressions, config.compressions), Pair([], []), false, 0)
  }

  /** The octets of an offer as `sendKexInit` builds it: every list for both directions, no languages, no guess. */
  lemma SentOfferOctets(config: Config, cookie: seq<byte>, hostKey: Names)
    ensures var ciphers, macs := NamesOctets(config.ciphers), NamesOctets(config.macs);
            var compressions := NamesOctets(config.compressions);
            Marshal(KEX_INIT, ToValues(Offer(config, cookie, hostKey)))
            == [20] + cookie
               + (NamesOctets(config.kex) + NamesOctets(hostKey) + ciphers + ciphers + macs + macs + compressions + compressions)
               + ([0, 0, 0, 0] + [0, 0, 0, 0] + [0] + [0, 0, 0, 0])
  {
    OfferOctets(Offer(config, cookie, hostKey));
    assert PutU32(0) == [0, 0, 0, 0];
    assert NamesOctets([]) == [0, 0, 0, 0];
  }

  /** From two configurations to matching ciphers: whatever both ends conclude, they conclude it alike,
      and when they agree each reader has the algorithms, IV and keys of the other's writer. */
  lemma ConfiguredEndsMatch(z: Sizes, c: KexInit, s: KexInit, cc: Config, sc: Config,
                            cookie: seq<byte>, cookie': seq<byte>, hostKey: Names, hostKey': Names, e: KexResult)
    requires e.Valid() && c == Offer(cc, cookie, hostKey) && s == Offer(sc, cookie', hostKey') && Sendable(c) && Sendable(s)
    ensures var there := Meet(true, c, Marshal(KEX_INIT, ToValues(s)));
            var here := Meet(false, s, Marshal(KEX_INIT, ToValues(c)));
            && there == here
            && (there.Agreed? ==> Matched(PrepareKeyChange(z, true, there.algs, e), PrepareKeyChange(z, false, here.algs, e)))
  {
    hide Common, Marshal, Meet, Sendable, Matched, PrepareKeyChange;
    BothEndsConclude(c, s);
    if Agree(c, s).Agreed? {
      MatchedIffAlike(z, Agree(c, s).algs, e);
    }
  }

  /** Stated on the offers: ends that agree match exactly when the client's first choice among the server's
      ciphers is the same for both directions and so is, unless that is AES-GCM, its first choice among the MACs. */
  lemma MatchedIffChoicesAlike(z: Sizes, c: KexInit, s: KexInit, e: KexResult)
    requires e.Valid() && Agree(c, s).Agreed?
    ensures Matched(PrepareKeyChange(z, true, Agree(c, s).algs, e), PrepareKeyChange(z, false, Agree(c, s).algs, e))
            <==> && Common(c.ciphers.cs, s.ciphers.cs) == Common(c.ciphers.sc, s.ciphers.sc)
                 && (|| Common(c.ciphers.cs, s.ciphers.cs) == Some(GCM)
                     || Common(c.macs.cs, s.macs.cs) == Common(c.macs.sc, s.macs.sc))
  {
    hide Common, Matched, PrepareKeyChange;
    MatchedIffAlike(z, Agree(c, s).algs, e);
  }

  lemma {:induction false} SmallFields(vs: seq<Value>)
    requires forall i :: 0 <= i < |vs| ==> |EncodeField(vs[i])| <= 32
    ensures |EncodeFields(vs)| <= 32 * |vs|
  {
    hide EncodeField;
    if vs != [] {
      SmallFields(vs[1..]);
    }
  }

  const ZERO_COOKIE: seq<byte> := [0, 0, 0, 0, 0, 0, 0, 0, 0, 0, 0, 0, 0, 0, 0, 0]

  const DH14 := Ascii("diffie-hellman-group14-sha1")
  const RSA := Ascii("ssh-rsa")
  const AES128 := Ascii("aes128-ctr")
  const AES256 := Ascii("aes256-ctr")
  const HMAC := Ascii("hmac-sha1")
  const NONE := Ascii("none")

  /** What another implementation may offer: one cipher to the server and another back. */
  const FOREIGN := KexInit(ZERO_COOKIE, [DH14], [RSA], Pair([AES128], [AES256]), Pair([HMAC], [HMAC]), Pair([NONE], [NONE]),
                           Pair([], []), false, 0)

  const LISTS := Config([DH14], [AES128, AES256], [HMAC], [NONE])

  lemma AsciiWithoutComma(s: string)
    requires forall i :: 0 <= i < |s| ==> s[i] as int < 128 && s[i] != ','
    ensures COMMA !in Ascii(s)
  {
  }

  lemma NamesWithoutComma()
    ensures COMMA !in DH14 && COMMA !in RSA && COMMA !in AES128 && COMMA !in AES256 && COMMA !in HMAC && COMMA !in NONE
  {
    AsciiWithoutComma("diffie-hellman-group14-sha1");
    AsciiWithoutComma("ssh-rsa");
    AsciiWithoutComma("aes128-ctr");
    AsciiWithoutComma("aes256-ctr");
    AsciiWithoutComma("hmac-sha1");
    AsciiWithoutComma("none");
  }

  lemma NamesDiffer()
    ensures AES128 != AES256 && AES128 != GCM && AES256 != GCM
  {
    assert AES128[3] == '1' as int && AES256[3] == '2' as int;
  }

  lemma ForeignSendable()
    ensures Sendable(FOREIGN)
  {
    NamesWithoutComma();
    SmallFields(ToValues(FOREIGN));
  }

  lemma OfferSendable()
    ensures Sendable(Offer(LISTS, ZERO_COOKIE, [RSA]))
  {
    NamesWithoutComma();
    assert [AES128, AES256][1..] == [AES256];
    assert |Join([AES128, AES256])| == 21;
    SmallFields(ToValues(Offer(LISTS, ZERO_COOKIE, [RSA])));
  }

  /** A client that offers unlike lists and a server of this implementation can agree, both conclude so, and
      their readers and writers do not match. */
  lemma UnlikeDirections(z: Sizes, e: KexResult)
    requires e.Valid()
    ensures var c, s := FOREIGN, Offer(LISTS, ZERO_COOKIE, [RSA]);
            var there := Meet(true, c, Marshal(KEX_INIT, ToValues(s)));
            var here := Meet(false, s, Marshal(KEX_INIT, ToValues(c)));
            && Sendable(c) && Sendable(s) && there == here && there.Agreed?
            && !Matched(PrepareKeyChange(z, true, there.algs, e), PrepareKeyChange(z, false, here.algs, e))
  {
    hide Meet, Sendable, Matched, PrepareKeyChange, Marshal, Ascii;
    var c, s := FOREIGN, Offer(LISTS, ZERO_COOKIE, [RSA]);
    ForeignSendable();
    OfferSendable();
    NamesDiffer();
    BothEndsConclude(c, s);
    assert Common([AES128], [AES128, AES256]) == Some(AES128) && Common([AES256], [AES128, AES256]) == Some(AES256);
    MatchedIffChoicesAlike(z, c, s, e);
  }
}
