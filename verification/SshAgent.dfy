/** The agent between an SSH client and the vault session: packets of draft-miller-ssh-agent in and out,
    session requests behind them. */
module SshAgent {
  import opened Bits
  import opened Results
  import opened SshWire

  /** A key offered to the client; the comment is given as its UTF-8 bytes. */
  datatype Identity = Identity(blob: seq<byte>, comment: seq<byte>)

  datatype Request = ListIdentities | Sign(blob: seq<byte>, data: seq<byte>, flags: nat)

  datatype Response = Identities(ids: seq<Identity>) | Signed(signature: seq<byte>) | OtherResponse

  /** The session's reply to each request; nothing when it cannot be reached. */
  type Session = Request -> Option<Response>

  const FAILURE: seq<byte> := [5]

  // ---- Requests

  /** What the agent reads from a packet. The flags of a sign request may be missing, and bytes behind
      them are not looked at. */
  function Decoded(packet: seq<byte>): Option<Request> {
    if packet == [] then None
    else if packet[0] == 11 then Some(ListIdentities)
    else if packet[0] == 13 then
      match TakeString(packet[1..]) case None => None case Some(blob) =>
      match TakeString(blob.rest) case None => None case Some(data) =>
      Some(Sign(blob.item, data.item, Flags(data.rest)))
    else None
  }

  function Flags(rest: seq<byte>): nat {
    match TakeWord(rest) case None => 0 case Some(flags) => flags.item
  }

  function SignRequest(blob: seq<byte>, data: seq<byte>, rest: seq<byte>): seq<byte> {
    [13] + (Str(blob) + (Str(data) + rest))
  }

  /** A packet is a request to sign exactly when it holds the key and the data as strings; nothing else
      can be read as that request. */
  lemma SignDecodedIff(packet: seq<byte>, blob: seq<byte>, data: seq<byte>, flags: nat)
    ensures Decoded(packet) == Some(Sign(blob, data, flags))
            <==> exists rest :: (packet == SignRequest(blob, data, rest)
                                 && |blob| < WORD && |data| < WORD && flags == Flags(rest))
  {
    if Decoded(packet) == Some(Sign(blob, data, flags)) {
      TakenStringWasThere(packet[1..]);
      var t := TakeString(packet[1..]).value;
      TakenStringWasThere(t.rest);
      var rest := TakeString(t.rest).value.rest;
      assert packet == [packet[0]] + packet[1..];
      assert packet == SignRequest(blob, data, rest);
    }
    if exists rest :: (packet == SignRequest(blob, data, rest)
                       && |blob| < WORD && |data| < WORD && flags == Flags(rest)) {
      var rest :| (packet == SignRequest(blob, data, rest)
                   && |blob| < WORD && |data| < WORD && flags == Flags(rest));
      SignRequestReads(blob, data, rest);
    }
  }

  lemma SignRequestReads(blob: seq<byte>, data: seq<byte>, rest: seq<byte>)
    requires |blob| < WORD && |data| < WORD
    ensures Decoded(SignRequest(blob, data, rest)) == Some(Sign(blob, data, Flags(rest)))
  {
    assert SignRequest(blob, data, rest)[1..] == Str(blob) + (Str(data) + rest);
    StringIsTaken(blob, Str(data) + rest);
    StringIsTaken(data, rest);
  }

  /** The request a client builds from a key, data and flags is read back to the same three; without the
      flags word it is read with flags zero. */
  lemma SignRequestReadsBack(blob: seq<byte>, data: seq<byte>, flags: nat, short: seq<byte>)
    requires |blob| < WORD && |data| < WORD && flags < WORD && |short| < 4
    ensures Decoded(SignRequest(blob, data, Word(flags))) == Some(Sign(blob, data, flags))
    ensures Decoded(SignRequest(blob, data, short)) == Some(Sign(blob, data, 0))
  {
    SignRequestReads(blob, data, Word(flags));
    SignRequestReads(blob, data, short);
    WordIsTaken(flags, []);
    assert Word(flags) + [] == Word(flags);
  }

  // ---- Answers

  function Listed(ids: seq<Identity>): seq<byte> {
    if ids == [] then [] else Str(ids[0].blob) + (Str(ids[0].comment) + Listed(ids[1..]))
  }

  function IdentitiesAnswer(ids: seq<Identity>): seq<byte> {
    [12] + (Word(|ids|) + Listed(ids))
  }

  function SignAnswer(signature: seq<byte>): seq<byte> {
    [14] + Str(signature)
  }

  function Answer(packet: seq<byte>, session: Session): seq<byte> {
    match Decoded(packet)
    case None => FAILURE
    case Some(request) =>
      match (request, session(request))
      case (ListIdentities, Some(Identities(ids))) => IdentitiesAnswer(ids)
      case (ListIdentities, _) => IdentitiesAnswer([])
      case (Sign(_, _, _), Some(Signed(signature))) => SignAnswer(signature)
      case (Sign(_, _, _), _) => FAILURE
  }

  lemma {:induction false} ListedSnoc(ids: seq<Identity>, id: Identity)
    ensures Listed(ids + [id]) == Listed(ids) + (Str(id.blob) + Str(id.comment))
  {
    if ids == [] {
      assert ids + [id] == [id] && [id][1..] == [];
      assert Str(id.comment) + Listed([]) == Str(id.comment);
    } else {
      ListedSnoc(ids[1..], id);
      assert (ids + [id])[1..] == ids[1..] + [id];
      var last := Str(id.blob) + Str(id.comment);
      Rearrange(Str(ids[0].blob), Str(ids[0].comment), Listed(ids[1..]), last);
    }
  }

  lemma Rearrange(a: seq<byte>, b: seq<byte>, c: seq<byte>, d: seq<byte>)
    ensures a + (b + (c + d)) == (a + (b + c)) + d
  {}

  method ListPacket(ids: seq<Identity>) returns (resp: seq<byte>)
    ensures resp == IdentitiesAnswer(ids)
  {
    resp := [12];
    resp := resp + Word(|ids|);
    for i := 0 to |ids|
      invariant resp == [12] + (Word(|ids|) + Listed(ids[..i]))
    {
      ListedSnoc(ids[..i], ids[i]);
      assert ids[..i + 1] == ids[..i] + [ids[i]];
      var head := [12] + Word(|ids|);
      assert resp == head + Listed(ids[..i]);
      Chained(head, Listed(ids[..i]), Word(|ids[i].blob|), ids[i].blob, Word(|ids[i].comment|), ids[i].comment);
      resp := resp + Word(|ids[i].blob|);
      resp := resp + ids[i].blob;
      resp := resp + Word(|ids[i].comment|);
      resp := resp + ids[i].comment;
      assert head + Listed(ids[..i + 1]) == [12] + (Word(|ids|) + Listed(ids[..i + 1]));
    }
    assert ids[..|ids|] == ids;
  }

  lemma Chained(h: seq<byte>, l: seq<byte>, a: seq<byte>, b: seq<byte>, c: seq<byte>, d: seq<byte>)
    ensures h + l + a + b + c + d == h + (l + ((a + b) + (c + d)))
  {}

  /** One packet from the client. The session decides what is listed and signed; every other packet,
      every packet cut short and every refusal is answered by the failure message. */
  method HandlePacket(packet: seq<byte>, session: Session) returns (resp: seq<byte>)
    ensures resp == Answer(packet, session)
  {
    if packet == [] {
      return FAILURE;
    }
    if packet[0] == 11 {
      var identities := match session(ListIdentities) case Some(Identities(ids)) => ids case _ => [];
      resp := ListPacket(identities);
      return;
    } else if packet[0] == 13 {
      var key, data, flags, cursor;
      key, cursor := ReadSshString(packet, 1);
      if key.None? { return FAILURE; }
      data, cursor := ReadSshString(packet, cursor);
      if data.None? { return FAILURE; }
      flags, cursor := ReadU32(packet, cursor);
      var request := Sign(key.value, data.value, if flags.Some? then flags.value else 0);
      assert Decoded(packet) == Some(request);
      match session(request) {
        case Some(Signed(signature)) =>
          resp := [14];
          resp := resp + Word(|signature|);
          resp := resp + signature;
          assert resp == SignAnswer(signature);
        case _ => resp := FAILURE;
      }
      return;
    }
    return FAILURE;
  }

  /** Whatever is neither asking for the list nor a request to sign, as a packet cut short is not, is answered by the
      failure message. */
  lemma OtherPacketsFail(packet: seq<byte>, session: Session)
    requires packet == [] || (packet[0] != 11 && packet[0] != 13)
             || (packet[0] == 13 && forall blob, data, rest :: (|blob| < WORD && |data| < WORD ==>
                                                               packet != SignRequest(blob, data, rest)))
    ensures Answer(packet, session) == [5]
  {
    if Decoded(packet).Some? && packet[0] == 13 {
      var sign := Decoded(packet).value;
      SignDecodedIff(packet, sign.blob, sign.data, sign.flags);
    }
  }

  // ---- What a client reads in them

  function TakeIdentities(count: nat, buf: seq<byte>): Option<Taken<seq<Identity>>> {
    if count == 0 then Some(Taken([], buf)) else
    match TakeString(buf) case None => None case Some(blob) =>
    match TakeString(blob.rest) case None => None case Some(comment) =>
    match TakeIdentities(count - 1, comment.rest) case None => None case Some(others) =>
    Some(Taken([Identity(blob.item, comment.item)] + others.item, others.rest))
  }

  predicate Sendable(ids: seq<Identity>) {
    |ids| < WORD && forall i :: 0 <= i < |ids| ==> |ids[i].blob| < WORD && |ids[i].comment| < WORD
  }

  lemma {:induction false} ListedIsTaken(ids: seq<Identity>, rest: seq<byte>)
    requires Sendable(ids)
    ensures TakeIdentities(|ids|, Listed(ids) + rest) == Some(Taken(ids, rest))
  {
    if ids == [] {
      assert [] + rest == rest;
    } else {
      ListedIsTaken(ids[1..], rest);
      var behind := Listed(ids[1..]) + rest;
      Rearrange(Str(ids[0].blob), Str(ids[0].comment), Listed(ids[1..]), rest);
      StringIsTaken(ids[0].blob, Str(ids[0].comment) + behind);
      StringIsTaken(ids[0].comment, behind);
      assert ids == [ids[0]] + ids[1..];
    }
  }

  /** The list a client reads: the answer's type, its count, and that many pairs up to the last byte. */
  function ClientReads(resp: seq<byte>): Option<seq<Identity>> {
    if resp == [] || resp[0] != 12 then None else
    match TakeWord(resp[1..]) case None => None case Some(count) =>
    match TakeIdentities(count.item, count.rest) case None => None case Some(ids) =>
    if ids.rest == [] then Some(ids.item) else None
  }

  /** A client that asks for the identities reads exactly the list the session holds, to the last byte;
      an unreachable or refusing session reads as an empty list. */
  lemma ClientReadsIdentities(packet: seq<byte>, session: Session)
    requires packet != [] && packet[0] == 11
    requires match session(ListIdentities) case Some(Identities(ids)) => Sendable(ids) case _ => true
    ensures ClientReads(Answer(packet, session))
         == Some(match session(ListIdentities) case Some(Identities(ids)) => ids case _ => [])
  {
    var ids := match session(ListIdentities) case Some(Identities(ids)) => ids case _ => [];
    var resp := IdentitiesAnswer(ids);
    assert resp[1..] == Word(|ids|) + Listed(ids);
    WordIsTaken(|ids|, Listed(ids));
    ListedIsTaken(ids, []);
    assert Listed(ids) + [] == Listed(ids);
  }

  lemma SignRequestAnswered(blob: seq<byte>, data: seq<byte>, flags: nat, session: Session)
    requires |blob| < WORD && |data| < WORD && flags < WORD
    ensures Answer(SignRequest(blob, data, Word(flags)), session)
         == match session(Sign(blob, data, flags))
            case Some(Signed(signature)) => SignAnswer(signature)
            case _ => FAILURE
  {
    SignRequestReadsBack(blob, data, flags, []);
  }

  /** A client that asks for a signature reads the session's signature, or the failure message, for the
      very key, data and flags it sent. */
  lemma ClientReadsSignature(blob: seq<byte>, data: seq<byte>, flags: nat, session: Session)
    requires |blob| < WORD && |data| < WORD && flags < WORD
    ensures var resp := Answer(SignRequest(blob, data, Word(flags)), session);
            match session(Sign(blob, data, flags))
            case Some(Signed(signature)) =>
              && resp != [] && resp[0] == 14
              && (|signature| < WORD ==> TakeString(resp[1..]) == Some(Taken(signature, [])))
            case _ => resp == FAILURE
  {
    SignRequestAnswered(blob, data, flags, session);
    match session(Sign(blob, data, flags)) {
      case Some(Signed(signature)) =>
        assert SignAnswer(signature)[1..] == Str(signature) + [];
        if |signature| < WORD { StringIsTaken(signature, []); }
      case _ =>
    }
  }
}
