/** The reader of decoded `openssh-key-v1` blocks: an envelope of length-prefixed strings around a
    public blob and, when nothing is encrypted, a private section. */
module SshKeyParser {
  import opened Bits
  import opened Results
  import opened SshWire

  datatype Key =
    | Ed25519(blob: seq<byte>, seed: seq<byte>)
    | P256Key(blob: seq<byte>, scalar: seq<byte>)
    | PublicKeyOnly(blob: seq<byte>)

  // ASCII: "openssh-key-v1" with a final zero byte, and "none"
  const MAGIC: seq<byte> := [111, 112, 101, 110, 115, 115, 104, 45, 107, 101, 121, 45, 118, 49, 0]
  const NONE: seq<byte> := [110, 111, 110, 101]

  lemma MarksSpelled()
    ensures MAGIC == Ascii("openssh-key-v1") + [0] && NONE == Ascii("none")
  {}

  // ---- Three strings in a row: the names of an envelope, the fields of a P-256 key

  datatype Three = Three(first: seq<byte>, second: seq<byte>, third: seq<byte>)

  function WrittenThree(t: Three, rest: seq<byte>): seq<byte> {
    Str(t.first) + (Str(t.second) + (Str(t.third) + rest))
  }

  predicate ThreeFit(t: Three) {
    |t.first| < WORD && |t.second| < WORD && |t.third| < WORD
  }

  function TakeThree(buf: seq<byte>): Option<Taken<Three>> {
    match TakeString(buf) case None => None case Some(first) =>
    match TakeString(first.rest) case None => None case Some(second) =>
    match TakeString(second.rest) case None => None case Some(third) =>
    Some(Taken(Three(first.item, second.item, third.item), third.rest))
  }

  lemma ThreeTakenIffWritten(buf: seq<byte>, t: Three, rest: seq<byte>)
    ensures TakeThree(buf) == Some(Taken(t, rest)) <==> ThreeFit(t) && buf == WrittenThree(t, rest)
  {
    if TakeThree(buf) == Some(Taken(t, rest)) {
      TakenStringWasThere(buf);
      var first := TakeString(buf).value;
      TakenStringWasThere(first.rest);
      TakenStringWasThere(TakeString(first.rest).value.rest);
    }
    if ThreeFit(t) && buf == WrittenThree(t, rest) {
      StringIsTaken(t.first, Str(t.second) + (Str(t.third) + rest));
      StringIsTaken(t.second, Str(t.third) + rest);
      StringIsTaken(t.third, rest);
    }
  }

  method ReadThree(buf: seq<byte>, cursor: nat) returns (val: Option<Three>, after: nat)
    requires cursor <= |buf|
    ensures cursor <= after <= |buf|
    ensures match TakeThree(buf[cursor..])
            case None => val == None
            case Some(t) => val == Some(t.item) && buf[after..] == t.rest
  {
    var first, second, third;
    first, after := ReadSshString(buf, cursor);
    if first.None? { return None, after; }
    second, after := ReadSshString(buf, after);
    if second.None? { return None, after; }
    third, after := ReadSshString(buf, after);
    if third.None? { return None, after; }
    val := Some(Three(first.value, second.value, third.value));
  }

  // ---- The two layers of the layout

  /** The names are the cipher, the key derivation function and its options. */
  datatype Envelope = Envelope(names: Three, keys: nat, blob: seq<byte>, rest: seq<byte>)

  function WrittenBody(e: Envelope): seq<byte> {
    WrittenThree(e.names, Word(e.keys) + (Str(e.blob) + e.rest))
  }

  function Written(e: Envelope): seq<byte> {
    MAGIC + WrittenBody(e)
  }

  predicate Fits(e: Envelope) {
    ThreeFit(e.names) && e.keys < WORD && |e.blob| < WORD
  }

  function OpenedBody(body: seq<byte>): Option<Envelope> {
    match TakeThree(body) case None => None case Some(names) =>
    match TakeWord(names.rest) case None => None case Some(keys) =>
    match TakeString(keys.rest) case None => None case Some(blob) =>
    Some(Envelope(names.item, keys.item, blob.item, blob.rest))
  }

  function Opened(bytes: seq<byte>): Option<Envelope> {
    if |bytes| < |MAGIC| || bytes[..|MAGIC|] != MAGIC then None else OpenedBody(bytes[|MAGIC|..])
  }

  datatype Section = Section(check1: nat, check2: nat, keyType: seq<byte>, rest: seq<byte>)

  function WrittenSection(s: Section): seq<byte> {
    Word(s.check1) + (Word(s.check2) + (Str(s.keyType) + s.rest))
  }

  predicate SectionFits(s: Section) {
    s.check1 < WORD && s.check2 < WORD && |s.keyType| < WORD
  }

  function OpenedSection(bytes: seq<byte>): Option<Section> {
    match TakeWord(bytes) case None => None case Some(check1) =>
    match TakeWord(check1.rest) case None => None case Some(check2) =>
    match TakeString(check2.rest) case None => None case Some(keyType) =>
    Some(Section(check1.item, check2.item, keyType.item, keyType.rest))
  }

  lemma BodyOpenedIffWritten(body: seq<byte>, e: Envelope)
    ensures OpenedBody(body) == Some(e) <==> Fits(e) && body == WrittenBody(e)
  {
    if OpenedBody(body) == Some(e) {
      var names := TakeThree(body).value;
      ThreeTakenIffWritten(body, names.item, names.rest);
      TakenWordWasThere(names.rest);
      TakenStringWasThere(TakeWord(names.rest).value.rest);
    }
    if Fits(e) && body == WrittenBody(e) {
      ThreeTakenIffWritten(body, e.names, Word(e.keys) + (Str(e.blob) + e.rest));
      WordIsTaken(e.keys, Str(e.blob) + e.rest);
      StringIsTaken(e.blob, e.rest);
    }
  }

  lemma PrefixedIff(prefix: seq<byte>, body: seq<byte>, bytes: seq<byte>)
    ensures bytes == prefix + body
            <==> |prefix| <= |bytes| && bytes[..|prefix|] == prefix && bytes[|prefix|..] == body
  {}

  /** The envelope is read exactly when the bytes are its written form. */
  lemma OpenedIffWritten(bytes: seq<byte>, e: Envelope)
    ensures Opened(bytes) == Some(e) <==> Fits(e) && bytes == Written(e)
  {
    PrefixedIff(MAGIC, WrittenBody(e), bytes);
    if |MAGIC| <= |bytes| { BodyOpenedIffWritten(bytes[|MAGIC|..], e); }
  }

  lemma SectionOpenedIffWritten(bytes: seq<byte>, s: Section)
    ensures OpenedSection(bytes) == Some(s) <==> SectionFits(s) && bytes == WrittenSection(s)
  {
    if OpenedSection(bytes) == Some(s) {
      TakenWordWasThere(bytes);
      var check1 := TakeWord(bytes).value;
      TakenWordWasThere(check1.rest);
      TakenStringWasThere(TakeWord(check1.rest).value.rest);
    }
    if SectionFits(s) && bytes == WrittenSection(s) {
      var r2 := Str(s.keyType) + s.rest;
      WordIsTaken(s.check1, Word(s.check2) + r2);
      WordIsTaken(s.check2, r2);
      StringIsTaken(s.keyType, s.rest);
    }
  }

  // ---- What the parser makes of them

  function Zeros(n: nat): (z: seq<byte>)
    ensures |z| == n
  {
    if n == 0 then [] else [0] + Zeros(n - 1)
  }

  /** The private scalar of a P-256 key at exactly 32 bytes. */
  function Normalised(scalar: seq<byte>): Option<seq<byte>> {
    if |scalar| == 33 && scalar[0] == 0 then Some(scalar[1..])
    else if |scalar| == 32 then Some(scalar)
    else if 0 < |scalar| < 32 then Some(Zeros(32 - |scalar|) + scalar)
    else None
  }

  function FromEd25519(blob: seq<byte>, fields: seq<byte>): Option<Key> {
    match TakeString(fields) case None => None case Some(pub) =>
    match TakeString(pub.rest) case None => None case Some(priv) =>
    Some(if |priv.item| >= 32 then Ed25519(blob, priv.item[..32]) else PublicKeyOnly(blob))
  }

  function FromP256(blob: seq<byte>, fields: seq<byte>): Option<Key> {
    match TakeThree(fields) case None => None case Some(t) =>
    match Normalised(t.item.third) case None => None case Some(scalar) =>
    Some(P256Key(blob, scalar))
  }

  function FromFields(blob: seq<byte>, s: Section): Option<Key> {
    if s.keyType == ED25519 then FromEd25519(blob, s.rest)
    else if s.keyType == P256 then FromP256(blob, s.rest)
    else Some(PublicKeyOnly(blob))
  }

  function FromSection(blob: seq<byte>, section: seq<byte>): Option<Key> {
    match OpenedSection(section) case None => None case Some(s) =>
    if s.check1 != s.check2 then None else FromFields(blob, s)
  }

  function FromEnvelope(e: Envelope): Option<Key> {
    if e.names.first != NONE then Some(PublicKeyOnly(e.blob))
    else
      match TakeString(e.rest) case None => None case Some(section) =>
      FromSection(e.blob, section.item)
  }

  function Parsed(bytes: seq<byte>): Option<Key> {
    match Opened(bytes) case None => None case Some(e) =>
    if e.keys != 1 then None else FromEnvelope(e)
  }

  method ParseFields(blob: seq<byte>, section: seq<byte>, s: Section, start: nat) returns (key: Option<Key>)
    requires start <= |section| && s.rest == section[start..]
    ensures key == FromFields(blob, s)
  {
    var cursor := start;
    if s.keyType == ED25519 {
      var pub, priv;
      pub, cursor := ReadSshString(section, cursor);
      if pub.None? { return None; }
      priv, cursor := ReadSshString(section, cursor);
      if priv.None? { return None; }
      if |priv.value| >= 32 {
        return Some(Ed25519(blob, priv.value[..32]));
      }
    } else if s.keyType == P256 {
      var fields;
      fields, cursor := ReadThree(section, cursor);
      if fields.None? { return None; }
      var scalar := NormaliseScalar(fields.value.third);
      if scalar.None? { return None; }
      return Some(P256Key(blob, scalar.value));
    }
    return Some(PublicKeyOnly(blob));
  }

  method ParseSection(blob: seq<byte>, section: seq<byte>) returns (key: Option<Key>)
    ensures key == FromSection(blob, section)
  {
    assert section[0..] == section;
    var check1, check2, keyType, cursor;
    check1, cursor := ReadU32(section, 0);
    if check1.None? { return None; }
    check2, cursor := ReadU32(section, cursor);
    if check2.None? { return None; }
    if check1 != check2 { return None; }
    keyType, cursor := ReadSshString(section, cursor);
    if keyType.None? { return None; }
    var s := Section(check1.value, check2.value, keyType.value, section[cursor..]);
    key := ParseFields(blob, section, s, cursor);
  }

  method NormaliseScalar(priv: seq<byte>) returns (normalised: Option<seq<byte>>)
    ensures normalised == Normalised(priv)
    ensures normalised.Some? ==> |normalised.value| == 32
  {
    if |priv| == 33 && priv[0] == 0 {
      assert priv[1..33] == priv[1..];
      return Some(priv[1..33]);
    } else if |priv| == 32 {
      return Some(priv);
    } else if priv != [] && |priv| < 32 {
      var offset := 32 - |priv|;
      return Some(Zeros(offset) + priv);
    }
    return None;
  }

  /** The fields in front of the private section; a file of several keys is refused. */
  method ReadEnvelope(bytes: seq<byte>, start: nat) returns (e: Option<Envelope>, cursor: nat)
    requires start <= |bytes|
    ensures start <= cursor <= |bytes|
    ensures match OpenedBody(bytes[start..])
            case None => e == None
            case Some(o) => e == (if o.keys == 1 then Some(o) else None)
    ensures e.Some? ==> e.value.rest == bytes[cursor..]
  {
    var names, keys, blob;
    names, cursor := ReadThree(bytes, start);
    if names.None? { return None, cursor; }
    keys, cursor := ReadU32(bytes, cursor);
    if keys.None? || keys.value != 1 { return None, cursor; }
    blob, cursor := ReadSshString(bytes, cursor);
    if blob.None? { return None, cursor; }
    e := Some(Envelope(names.value, keys.value, blob.value, bytes[cursor..]));
  }

  method ParsePayload(bytes: seq<byte>, e: Envelope, start: nat) returns (key: Option<Key>)
    requires start <= |bytes| && e.rest == bytes[start..]
    ensures key == FromEnvelope(e)
  {
    if e.names.first == NONE {
      var section, cursor := ReadSshString(bytes, start);
      if section.None? { return None; }
      key := ParseSection(e.blob, section.value);
      return;
    }
    return Some(PublicKeyOnly(e.blob));
  }

  method ParseOpensshV1Block(bytes: seq<byte>) returns (key: Option<Key>)
    ensures key == Parsed(bytes)
  {
    if |bytes| < |MAGIC| || bytes[..|MAGIC|] != MAGIC {
      return None;
    }
    var e, cursor := ReadEnvelope(bytes, |MAGIC|);
    if e.None? { return None; }
    key := ParsePayload(bytes, e.value, cursor);
  }

  // ---- Which blocks give which keys

  lemma {:induction false} LeadingZeros(n: nat, b: seq<byte>)
    ensures Magnitude(Zeros(n) + b) == Magnitude(b)
  {
    if n == 0 {
      assert Zeros(n) + b == b;
    } else {
      LeadingZeros(n - 1, b);
      assert Zeros(n) + b == [0] + (Zeros(n - 1) + b);
      MagnitudeCons(0, Zeros(n - 1) + b);
    }
  }

  /** Normalising keeps the number, and refuses exactly the empty string and those too long for it. */
  lemma NormalisedKeepsValue(p: seq<byte>)
    ensures Normalised(p) == None <==> (p == [] || |p| > 33 || (|p| == 33 && p[0] != 0))
    ensures Normalised(p).Some? ==>
              |Normalised(p).value| == 32 && Magnitude(Normalised(p).value) == Magnitude(p)
  {
    if |p| == 33 && p[0] == 0 {
      assert p == [p[0]] + p[1..];
      MagnitudeCons(p[0], p[1..]);
    } else if 0 < |p| < 32 {
      LeadingZeros(32 - |p|, p);
    }
  }

  /** A 32-byte scalar survives being written as an mpint and normalised again exactly when it is not
      zero: zero is written as the empty string, which the parser refuses. */
  lemma ScalarReadsBackIffNonZero(scalar: seq<byte>)
    requires |scalar| == 32
    ensures Normalised(Mpint(scalar)) == Some(scalar) <==> Magnitude(scalar) > 0
    ensures Magnitude(scalar) == 0 ==> Normalised(Mpint(scalar)) == None
  {
    MpintKeepsValue(scalar);
    SignificantSize(scalar);
    NormalisedKeepsValue(Mpint(scalar));
    if Magnitude(scalar) > 0 {
      MagnitudeOnce(Normalised(Mpint(scalar)).value, scalar);
    } else {
      MpintIsShortest(scalar, []);
    }
  }

  /** A block of one unencrypted key: any key derivation fields, any bytes behind the section. */
  ghost predicate HoldsSection(bytes: seq<byte>, blob: seq<byte>, e: Envelope, s: Section, tail: seq<byte>) {
    && Fits(e) && bytes == Written(e) && e.names.first == NONE && e.keys == 1 && e.blob == blob
    && SectionFits(s) && s.check1 == s.check2
    && |WrittenSection(s)| < WORD && e.rest == Str(WrittenSection(s)) + tail
  }

  ghost predicate Ed25519Fields(fields: seq<byte>, pub: seq<byte>, priv: seq<byte>, pad: seq<byte>) {
    |pub| < WORD && |priv| < WORD && fields == Str(pub) + (Str(priv) + pad)
  }

  ghost predicate P256Fields(fields: seq<byte>, t: Three, pad: seq<byte>) {
    ThreeFit(t) && fields == WrittenThree(t, pad)
  }

  lemma HeldSectionIsRead(bytes: seq<byte>, blob: seq<byte>, e: Envelope, s: Section, tail: seq<byte>)
    requires HoldsSection(bytes, blob, e, s, tail)
    ensures Parsed(bytes) == FromFields(blob, s)
  {
    OpenedIffWritten(bytes, e);
    SectionOpenedIffWritten(WrittenSection(s), s);
    StringIsTaken(WrittenSection(s), tail);
  }

  /** Every unencrypted Ed25519 block gives back its public blob and its seed, the first half of the
      private field. */
  lemma Ed25519BlockParses(bytes: seq<byte>, blob: seq<byte>, e: Envelope, s: Section, tail: seq<byte>,
                           pub: seq<byte>, priv: seq<byte>, pad: seq<byte>)
    requires HoldsSection(bytes, blob, e, s, tail)
    requires s.keyType == ED25519 && Ed25519Fields(s.rest, pub, priv, pad) && |priv| >= 32
    ensures Parsed(bytes) == Some(Ed25519(blob, priv[..32]))
  {
    HeldSectionIsRead(bytes, blob, e, s, tail);
    StringIsTaken(pub, Str(priv) + pad);
    StringIsTaken(priv, pad);
  }

  lemma P256BlockGives(bytes: seq<byte>, blob: seq<byte>, e: Envelope, s: Section, tail: seq<byte>,
                       fields: Three, pad: seq<byte>)
    requires HoldsSection(bytes, blob, e, s, tail)
    requires s.keyType == P256 && P256Fields(s.rest, fields, pad) && Normalised(fields.third).Some?
    ensures Parsed(bytes) == Some(P256Key(blob, Normalised(fields.third).value))
  {
    HeldSectionIsRead(bytes, blob, e, s, tail);
    TypesDiffer();
    ThreeTakenIffWritten(s.rest, fields, pad);
  }

  lemma TypesDiffer()
    ensures ED25519 != P256
  {
    assert |ED25519| != |P256|;
  }

  /** Every unencrypted P-256 block whose private field is a non-zero 32-byte scalar as an mpint gives
      back its public blob and that scalar. */
  lemma P256BlockParses(bytes: seq<byte>, blob: seq<byte>, e: Envelope, s: Section, tail: seq<byte>,
                        fields: Three, scalar: seq<byte>, pad: seq<byte>)
    requires HoldsSection(bytes, blob, e, s, tail)
    requires |scalar| == 32 && Magnitude(scalar) > 0
    requires s.keyType == P256 && P256Fields(s.rest, fields, pad) && fields.third == Mpint(scalar)
    ensures Parsed(bytes) == Some(P256Key(blob, scalar))
  {
    ScalarReadsBackIffNonZero(scalar);
    P256BlockGives(bytes, blob, e, s, tail, fields, pad);
  }

  lemma SignerEnvelope(e: Envelope) returns (s: Section, tail: seq<byte>)
    requires FromEnvelope(e).Some? && !FromEnvelope(e).value.PublicKeyOnly?
    ensures e.names.first == NONE && FromEnvelope(e) == FromFields(e.blob, s)
    ensures SectionFits(s) && s.check1 == s.check2
    ensures |WrittenSection(s)| < WORD && e.rest == Str(WrittenSection(s)) + tail
  {
    TakenStringWasThere(e.rest);
    var section := TakeString(e.rest).value;
    tail := section.rest;
    s := OpenedSection(section.item).value;
    SectionOpenedIffWritten(section.item, s);
  }

  lemma KeepsBlob(blob: seq<byte>, s: Section)
    requires FromFields(blob, s).Some?
    ensures FromFields(blob, s).value.blob == blob
  {}

  /** A key with private material comes only from a block that holds one unencrypted section. */
  lemma SigningKeyWasHeld(bytes: seq<byte>) returns (e: Envelope, s: Section, tail: seq<byte>)
    requires Parsed(bytes).Some? && !Parsed(bytes).value.PublicKeyOnly?
    ensures HoldsSection(bytes, Parsed(bytes).value.blob, e, s, tail)
    ensures Parsed(bytes) == FromFields(e.blob, s)
  {
    e := Opened(bytes).value;
    OpenedIffWritten(bytes, e);
    s, tail := SignerEnvelope(e);
    KeepsBlob(e.blob, s);
  }

  /** An encrypted block of one key, whatever its private part, gives the public key alone. */
  lemma EncryptedBlockGivesPublicKey(bytes: seq<byte>, e: Envelope)
    requires Fits(e) && bytes == Written(e) && e.keys == 1 && e.names.first != NONE
    ensures Parsed(bytes) == Some(PublicKeyOnly(e.blob))
  {
    OpenedIffWritten(bytes, e);
  }

  /** A block of several keys gives nothing. */
  lemma SeveralKeysRefused(bytes: seq<byte>, e: Envelope)
    requires Fits(e) && bytes == Written(e) && e.keys != 1
    ensures Parsed(bytes) == None
  {
    OpenedIffWritten(bytes, e);
  }

  /** An unencrypted section whose check words differ gives nothing, and one of another key type the public key
      alone. */
  lemma OtherSections(blob: seq<byte>, s: Section)
    requires SectionFits(s)
    ensures s.check1 != s.check2 ==> FromSection(blob, WrittenSection(s)) == None
    ensures s.check1 == s.check2 && s.keyType != ED25519 && s.keyType != P256 ==>
              FromSection(blob, WrittenSection(s)) == Some(PublicKeyOnly(blob))
  {
    SectionOpenedIffWritten(WrittenSection(s), s);
  }

  lemma SectionDecides(bytes: seq<byte>, e: Envelope, section: seq<byte>, tail: seq<byte>)
    requires Fits(e) && bytes == Written(e) && e.names.first == NONE && e.keys == 1
    requires |section| < WORD && e.rest == Str(section) + tail
    ensures Parsed(bytes) == FromSection(e.blob, section)
  {
    OpenedIffWritten(bytes, e);
    StringIsTaken(section, tail);
  }

  /** An unencrypted Ed25519 block whose private field is too short for a seed gives the public key alone. */
  lemma ShortSeedGivesPublicKey(bytes: seq<byte>, blob: seq<byte>, e: Envelope, s: Section, tail: seq<byte>,
                                pub: seq<byte>, priv: seq<byte>, pad: seq<byte>)
    requires HoldsSection(bytes, blob, e, s, tail)
    requires s.keyType == ED25519 && Ed25519Fields(s.rest, pub, priv, pad) && |priv| < 32
    ensures Parsed(bytes) == Some(PublicKeyOnly(blob))
  {
    HeldSectionIsRead(bytes, blob, e, s, tail);
    StringIsTaken(pub, Str(priv) + pad);
    StringIsTaken(priv, pad);
  }

  ghost predicate IsEd25519Block(bytes: seq<byte>, blob: seq<byte>, seed: seq<byte>) {
    exists e, s, tail, pub, priv, pad :: (
      && HoldsSection(bytes, blob, e, s, tail) && s.keyType == ED25519
      && Ed25519Fields(s.rest, pub, priv, pad) && |priv| >= 32 && seed == priv[..32])
  }

  lemma Ed25519FieldsWere(blob: seq<byte>, s: Section) returns (pub: seq<byte>, priv: seq<byte>, pad: seq<byte>)
    requires FromFields(blob, s).Some? && FromFields(blob, s).value.Ed25519?
    ensures s.keyType == ED25519 && Ed25519Fields(s.rest, pub, priv, pad) && |priv| >= 32
    ensures FromFields(blob, s).value.seed == priv[..32]
  {
    TakenStringWasThere(s.rest);
    var first := TakeString(s.rest).value;
    TakenStringWasThere(first.rest);
    var second := TakeString(first.rest).value;
    pub, priv, pad := first.item, second.item, second.rest;
  }

  /** The parser returns an Ed25519 key exactly for the blocks laid out as one. */
  lemma Ed25519IffLaidOut(bytes: seq<byte>, blob: seq<byte>, seed: seq<byte>)
    ensures Parsed(bytes) == Some(Ed25519(blob, seed)) <==> IsEd25519Block(bytes, blob, seed)
  {
    if Parsed(bytes) == Some(Ed25519(blob, seed)) {
      var e, s, tail := SigningKeyWasHeld(bytes);
      var pub, priv, pad := Ed25519FieldsWere(e.blob, s);
    }
    if IsEd25519Block(bytes, blob, seed) {
      var e, s, tail, pub, priv, pad :| (
        && HoldsSection(bytes, blob, e, s, tail) && s.keyType == ED25519
        && Ed25519Fields(s.rest, pub, priv, pad) && |priv| >= 32 && seed == priv[..32]);
      Ed25519BlockParses(bytes, blob, e, s, tail, pub, priv, pad);
    }
  }

  ghost predicate IsP256Block(bytes: seq<byte>, blob: seq<byte>, scalar: seq<byte>) {
    exists e, s, tail, fields, pad :: (
      && HoldsSection(bytes, blob, e, s, tail) && s.keyType == P256
      && P256Fields(s.rest, fields, pad) && Normalised(fields.third) == Some(scalar))
  }

  lemma P256FieldsWere(blob: seq<byte>, s: Section) returns (fields: Three, pad: seq<byte>)
    requires FromFields(blob, s).Some? && FromFields(blob, s).value.P256Key?
    ensures s.keyType == P256 && P256Fields(s.rest, fields, pad)
    ensures Normalised(fields.third) == Some(FromFields(blob, s).value.scalar)
  {
    var t := TakeThree(s.rest).value;
    ThreeTakenIffWritten(s.rest, t.item, t.rest);
    fields, pad := t.item, t.rest;
  }

  /** And a P-256 key exactly for the blocks whose private field is a number of at most 32 bytes. */
  lemma P256IffLaidOut(bytes: seq<byte>, blob: seq<byte>, scalar: seq<byte>)
    ensures Parsed(bytes) == Some(P256Key(blob, scalar)) <==> IsP256Block(bytes, blob, scalar)
  {
    if Parsed(bytes) == Some(P256Key(blob, scalar)) {
      var e, s, tail := SigningKeyWasHeld(bytes);
      var fields, pad := P256FieldsWere(e.blob, s);
    }
    if IsP256Block(bytes, blob, scalar) {
      var e, s, tail, fields, pad :| (
        && HoldsSection(bytes, blob, e, s, tail) && s.keyType == P256
        && P256Fields(s.rest, fields, pad) && Normalised(fields.third) == Some(scalar));
      P256BlockGives(bytes, blob, e, s, tail, fields, pad);
    }
  }
}
