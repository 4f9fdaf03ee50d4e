/** The receiver of cloud packets and the sessions of the calls that wait for one
    (pkg/rockrobo/cloud.go). The receiver hands a packet to a call, and a hello reply to the
    keep-alive loop, over channels without a buffer; a call stops waiting after a while. */
module CloudReceiver {
  import opened Bytes
  import opened Cbc
  import opened Padding
  import opened CloudPacket
  import opened CloudMessages
  import opened Options

  // ----- what becomes of a packet

  const BUFFER_SIZE := 4096

  const BLANK := Message(Header(Repeat(0, 2), 0, Repeat(0, 4), 0, 0, Repeat(0, 16)), [])

  /** What of a packet fits into the receiver's buffer; the rest is lost. */
  function Datagram(packet: seq<byte>): (d: seq<byte>)
    ensures |d| <= BUFFER_SIZE && d <= packet
    ensures d == packet <==> |packet| <= BUFFER_SIZE
  {
    if |packet| > BUFFER_SIZE then packet[..BUFFER_SIZE] else packet
  }

  /** The receiver reads each packet into a new message, and goes on after an error. */
  function ReadIn(c: Crypto, packet: seq<byte>, key: seq<byte>): Reading {
    Decoded(c, BLANK, Datagram(packet), key)
  }

  /** A packet that is shorter than a header leaves the new message with nothing in it. */
  lemma ShortPacket(c: Crypto, packet: seq<byte>, key: seq<byte>)
    requires |packet| < 32
    ensures ReadIn(c, packet, key)
         == Reading(Message(Header([0, 0], 0, [0, 0, 0, 0], 0, 0, Repeat(0, 16)), []), ShortHeader)
  {
    assert Repeat(0, 2) == [0, 0] && Repeat(0, 4) == [0, 0, 0, 0];
  }

  predicate IsHelloReply(c: Crypto, packet: seq<byte>, key: seq<byte>) {
    ReadIn(c, packet, key).message.header.length == HEADER_SIZE
  }

  /** The length field of a packet. */
  function LengthField(packet: seq<byte>): uint16
    requires |packet| >= HEADER_SIZE
  {
    DecodeHeader(packet[..HEADER_SIZE]).length
  }

  /** A packet counts as a hello reply exactly when its length field says so, whatever its
      size and checksum are. */
  lemma HelloReplyExactly(c: Crypto, packet: seq<byte>, key: seq<byte>)
    ensures IsHelloReply(c, packet, key) <==> |packet| >= HEADER_SIZE && LengthField(packet) == HEADER_SIZE
  {
    var d := Datagram(packet);
    if |packet| >= HEADER_SIZE {
      assert d[..HEADER_SIZE] == packet[..HEADER_SIZE];
      assert ReadIn(c, packet, key).message.header == DecodeHeader(d[..HEADER_SIZE]);
    }
  }

  /** So a packet that reading rejects counts as a hello reply exactly when its length
      field is that of a header alone and it is longer. */
  lemma RejectedHelloReply(c: Crypto, packet: seq<byte>, key: seq<byte>)
    ensures IsHelloReply(c, packet, key) && ReadIn(c, packet, key).error != NoError
       <==> |packet| > HEADER_SIZE && LengthField(packet) == HEADER_SIZE
  {
    HelloReplyExactly(c, packet, key);
    var d := Datagram(packet);
    if |packet| >= HEADER_SIZE {
      assert |d[HEADER_SIZE..]| == |d| - HEADER_SIZE;
    }
  }

  /** A hello reply with one octet too many is one. */
  lemma LongHelloReply(c: Crypto, key: seq<byte>)
    ensures var packet := EncodeHeader(BLANK.header.(length := HEADER_SIZE)) + [0];
            IsHelloReply(c, packet, key) && ReadIn(c, packet, key).error == SizeMismatch
  {
    var h := BLANK.header.(length := HEADER_SIZE);
    var packet := EncodeHeader(h) + [0];
    assert packet[..HEADER_SIZE] == EncodeHeader(h) && packet[HEADER_SIZE..] == [0];
    DecodeOfEncodeHeader(h);
  }

  datatype Routed = HelloReply | Crashed | Respond(call: nat, body: seq<byte>) | Unhandled

  /** What the receiver does with a packet that was read like this; `idOf` is the identifier
      in a body, zero when it is not a JSON message. A decryption of partial blocks stops the
      program; other errors are only logged. */
  function RouteRead(r: Reading, idOf: seq<byte> -> int, sessions: map<int, nat>): Routed {
    if r.error == PartialBlocks then Crashed
    else if r.message.header.length == HEADER_SIZE then HelloReply
    else if idOf(r.message.body) in sessions then Respond(sessions[idOf(r.message.body)], r.message.body)
    else Unhandled
  }

  function Route(c: Crypto, packet: seq<byte>, key: seq<byte>, idOf: seq<byte> -> int, sessions: map<int, nat>)
    : Routed
  {
    RouteRead(ReadIn(c, packet, key), idOf, sessions)
  }

  predicate ChecksumAgrees(c: Crypto, d: seq<byte>, key: seq<byte>)
    requires |d| >= HEADER_SIZE
  {
    var h := DecodeHeader(d[..HEADER_SIZE]);
    h.checksum == Checksum(c, h, key, d[HEADER_SIZE..])
  }

  /** The last octet of the decrypted body announces more padding than there are octets. */
  predicate OverPadded(c: Crypto, d: seq<byte>, key: seq<byte>)
    requires |d| >= HEADER_SIZE
  {
    |d| > HEADER_SIZE && |d| % 16 == 0 && Unpad(Plaintext(c, d, key)).TooShort?
  }

  /** How reading ends for a packet that is not taken for a header alone. */
  function Verdict(c: Crypto, d: seq<byte>, key: seq<byte>): ReadError
    requires |d| >= HEADER_SIZE
  {
    if LengthField(d) != |d| then SizeMismatch
    else if !ChecksumAgrees(c, d, key) then ChecksumMismatch
    else if |d| % 16 != 0 then PartialBlocks
    else if OverPadded(c, d, key) then BadPadding
    else NoError
  }

  lemma CheckedInVerdict(c: Crypto, d: seq<byte>, key: seq<byte>)
    requires HEADER_SIZE <= |d| <= BUFFER_SIZE && LengthField(d) != HEADER_SIZE
    ensures var checked := Checked(c, Message(DecodeHeader(d[..HEADER_SIZE]), d[HEADER_SIZE..]), key);
            if checked != NoError then Verdict(c, d, key) == checked
            else Verdict(c, d, key) == (if OverPadded(c, d, key) then BadPadding else NoError) &&
                 |d| > HEADER_SIZE && |d| % 16 == 0
  {
    assert |d[HEADER_SIZE..]| == |d| - HEADER_SIZE;
    assert WrappedLength(|d[HEADER_SIZE..]|) == |d|;
  }

  lemma VerdictOfRead(c: Crypto, d: seq<byte>, key: seq<byte>)
    requires HEADER_SIZE <= |d| <= BUFFER_SIZE && LengthField(d) != HEADER_SIZE
    ensures var r := Decoded(c, BLANK, d, key);
            && r.error == Verdict(c, d, key) && r.message.header.length == LengthField(d)
            && (r.error == SizeMismatch || r.error == ChecksumMismatch ==> r.message.body == d[HEADER_SIZE..])
            && (r.error == BadPadding ==> r.message.body == [])
  {
    CheckedInVerdict(c, d, key);
  }

  lemma RejectedRead(c: Crypto, d: seq<byte>, key: seq<byte>, r: Reading, idOf: seq<byte> -> int,
                     sessions: map<int, nat>)
    requires |d| >= HEADER_SIZE && LengthField(d) != HEADER_SIZE
    requires r.error == Verdict(c, d, key) && r.message.header.length == LengthField(d)
    requires r.error == SizeMismatch || r.error == ChecksumMismatch ==> r.message.body == d[HEADER_SIZE..]
    requires r.error == BadPadding ==> r.message.body == []
    ensures r.error != NoError && RouteRead(r, idOf, sessions).Respond?
       <==> if LengthField(d) != |d| || !ChecksumAgrees(c, d, key) then idOf(d[HEADER_SIZE..]) in sessions
            else OverPadded(c, d, key) && idOf([]) in sessions
  {
  }

  /** The packets that reading rejects and that are handed to a waiting call all the same,
      by length field, size, checksum and identifier. The error is only logged: the body is
      then what came in, still encrypted, or nothing. */
  lemma RejectedAnswerExactly(c: Crypto, packet: seq<byte>, key: seq<byte>, idOf: seq<byte> -> int,
                              sessions: map<int, nat>)
    ensures (var d := Datagram(packet);
             ReadIn(c, packet, key).error != NoError && Route(c, packet, key, idOf, sessions).Respond?
             <==> if |d| < HEADER_SIZE then idOf([]) in sessions
                  else LengthField(d) != HEADER_SIZE &&
                       if LengthField(d) != |d| || !ChecksumAgrees(c, d, key) then idOf(d[HEADER_SIZE..]) in sessions
                       else OverPadded(c, d, key) && idOf([]) in sessions)
  {
    var d, r := Datagram(packet), ReadIn(c, packet, key);
    if |d| >= HEADER_SIZE && LengthField(d) != HEADER_SIZE {
      VerdictOfRead(c, d, key);
      RejectedRead(c, d, key, r, idOf, sessions);
    } else if |d| >= HEADER_SIZE {
      HelloReplyExactly(c, packet, key);
      assert d[..HEADER_SIZE] == packet[..HEADER_SIZE];
    }
  }

  lemma CutOff(packet: seq<byte>)
    requires |packet| > BUFFER_SIZE
    ensures |Datagram(packet)| == BUFFER_SIZE && LengthField(Datagram(packet)) == LengthField(packet)
  {
    assert Datagram(packet)[..HEADER_SIZE] == packet[..HEADER_SIZE];
  }

  lemma CutOffIsRejected(c: Crypto, packet: seq<byte>, key: seq<byte>)
    requires |packet| > BUFFER_SIZE && LengthField(packet) == |packet|
    ensures ReadIn(c, packet, key).error == SizeMismatch
  {
    CutOff(packet);
    VerdictOfRead(c, Datagram(packet), key);
  }

  lemma FittingIsRead(c: Crypto, m: Message, key: seq<byte>)
    requires c.Permutation() && m.body != [] && |Written(c, m, key)| <= BUFFER_SIZE
    ensures ReadIn(c, Written(c, m, key), key).error == NoError
  {
    ReadOfWrite(c, m, key, BLANK);
  }

  lemma LengthWritten(c: Crypto, m: Message, key: seq<byte>)
    requires m.body != [] && |m.body| <= 65487
    ensures LengthField(Written(c, m, key)) == |Written(c, m, key)| == HEADER_SIZE + 16 * (|m.body| / 16 + 1)
  {
    WrittenSize(c, m, key);
    WrittenParts(c, m, key);
  }

  /** Of the packets that Write makes, those with a body of more than 4063 octets are
      rejected, and no others: they do not fit the buffer. (No larger body than in the
      requirement fits a datagram at all.) */
  lemma WrittenIsReceivedExactly(c: Crypto, m: Message, key: seq<byte>)
    requires c.Permutation() && m.body != [] && |m.body| <= 65487
    ensures ReadIn(c, Written(c, m, key), key).error == NoError <==> |m.body| <= 4063
  {
    LengthWritten(c, m, key);
    if |m.body| > 4063 {
      CutOffIsRejected(c, Written(c, m, key), key);
    } else {
      FittingIsRead(c, m, key);
    }
  }

  /** A packet like that: no length, no checksum, and a body with the identifier of a call. */
  lemma UncheckedAnswer(c: Crypto, key: seq<byte>, idOf: seq<byte> -> int, sessions: map<int, nat>, body: seq<byte>)
    requires |body| <= BUFFER_SIZE - HEADER_SIZE && idOf(body) in sessions
    ensures var packet := EncodeHeader(BLANK.header) + body;
            && ReadIn(c, packet, key).error == SizeMismatch
            && Route(c, packet, key, idOf, sessions) == Respond(sessions[idOf(body)], body)
  {
    var packet := EncodeHeader(BLANK.header) + body;
    assert packet[..HEADER_SIZE] == EncodeHeader(BLANK.header) && packet[HEADER_SIZE..] == body;
    DecodeOfEncodeHeader(BLANK.header);
    VerdictOfRead(c, packet, key);
  }

  // ----- the receiver and the calls, in any order of their steps

  datatype Phase = Waiting | TimedOut | Got(body: seq<byte>)

  datatype Call = Call(id: int, phase: Phase)

  /** What the receiver is trying to hand over. */
  datatype Offer = NoOffer | ToLoop | ToCall(call: nat, body: seq<byte>)

  datatype State = State(sessions: map<int, nat>, calls: seq<Call>, offer: Offer)

  const INITIAL := State(map[], [], NoOffer)

  /** `Packet` is one that is neither a hello reply nor stops the program; `TimeOut` stands
      also for a call whose own packet cannot be sent. */
  datatype Action =
    | Register(id: int)
    | TimeOut(call: nat)
    | Hello
    | Packet(body: seq<byte>)
    | TakeHello
    | Deliver

  predicate Waits(s: State, i: nat) {
    i < |s.calls| && s.calls[i].phase.Waiting?
  }

  predicate Enabled(s: State, a: Action) {
    match a
    case Register(_) => true
    case TimeOut(i) => Waits(s, i)
    case Hello => s.offer.NoOffer?
    case Packet(_) => s.offer.NoOffer?
    case TakeHello => s.offer.ToLoop?
    case Deliver => s.offer.ToCall? && Waits(s, s.offer.call)
  }

  function WithPhase(s: State, i: nat, phase: Phase): State
    requires i < |s.calls|
  {
    s.(calls := s.calls[i := s.calls[i].(phase := phase)])
  }

  function Apply(s: State, a: Action, idOf: seq<byte> -> int): State
    requires Enabled(s, a)
  {
    match a
    case Register(id) => s.(sessions := s.sessions[id := |s.calls|], calls := s.calls + [Call(id, Waiting)])
    case TimeOut(i) => WithPhase(s, i, TimedOut)
    case Hello => s.(offer := ToLoop)
    case Packet(body) =>
      var id := idOf(body);
      if id in s.sessions then s.(sessions := s.sessions - {id}, offer := ToCall(s.sessions[id], body)) else s
    case TakeHello => s.(offer := NoOffer)
    case Deliver => WithPhase(s, s.offer.call, Got(s.offer.body)).(offer := NoOffer)
  }

  /** The state after a run from `s`, or nothing when a step of it is not possible. */
  function After(s: State, actions: seq<Action>, idOf: seq<byte> -> int): Option<State> {
    if actions == [] then Some(s)
    else
      var before := After(s, actions[..|actions| - 1], idOf);
      var a := actions[|actions| - 1];
      if before.Some? && Enabled(before.value, a) then Some(Apply(before.value, a, idOf)) else None
  }

  predicate Registered(s: State, i: nat) {
    i < |s.calls| && s.calls[i].id in s.sessions && s.sessions[s.calls[i].id] == i
  }

  predicate OfferInOrder(s: State, i: nat, body: seq<byte>, idOf: seq<byte> -> int) {
    i < |s.calls| && idOf(body) == s.calls[i].id && !Registered(s, i) && !s.calls[i].phase.Got?
  }

  /** What is offered, and what has been received, carries the identifier of the call, and
      the call is not in the table any more. */
  predicate Inv(s: State, idOf: seq<byte> -> int) {
    && (forall id :: id in s.sessions ==> s.sessions[id] < |s.calls| && s.calls[s.sessions[id]].id == id)
    && (forall i :: 0 <= i < |s.calls| && s.calls[i].phase.Got? ==>
          idOf(s.calls[i].phase.body) == s.calls[i].id && !Registered(s, i))
    && (s.offer.ToCall? ==> OfferInOrder(s, s.offer.call, s.offer.body, idOf))
  }

  lemma StepKeepsInv(s: State, a: Action, idOf: seq<byte> -> int)
    requires Inv(s, idOf) && Enabled(s, a)
    ensures Inv(Apply(s, a, idOf), idOf)
  {
    var s' := Apply(s, a, idOf);
    forall i | 0 <= i < |s'.calls| && s'.calls[i].phase.Got?
      ensures idOf(s'.calls[i].phase.body) == s'.calls[i].id && !Registered(s', i)
    {
      assert i < |s.calls| && s'.calls[i].id == s.calls[i].id;
      assert !Registered(s, i);
    }
    if s'.offer.ToCall? {
      var i := s'.offer.call;
      if a.Packet? {
        assert Registered(s, i);
      } else {
        assert OfferInOrder(s, i, s.offer.body, idOf);
      }
      assert OfferInOrder(s', i, s'.offer.body, idOf);
    }
  }

  lemma {:induction false} AfterKeepsInv(s: State, actions: seq<Action>, idOf: seq<byte> -> int)
    requires Inv(s, idOf) && After(s, actions, idOf).Some?
    ensures Inv(After(s, actions, idOf).value, idOf)
  {
    if actions != [] {
      AfterKeepsInv(s, actions[..|actions| - 1], idOf);
      StepKeepsInv(After(s, actions[..|actions| - 1], idOf).value, actions[|actions| - 1], idOf);
    }
  }

  /** What a packet does: one with the identifier of a registered call is offered to that
      call and ends its session; all else stays, and all stays with another identifier. */
  lemma PacketExactly(s: State, body: seq<byte>, idOf: seq<byte> -> int)
    requires s.offer.NoOffer?
    ensures var after, id := Apply(s, Packet(body), idOf), idOf(body);
            && after.calls == s.calls && id !in after.sessions
            && (forall k :: k != id ==> (k in after.sessions <==> k in s.sessions))
            && (forall k :: k in after.sessions ==> after.sessions[k] == s.sessions[k])
            && after.offer == if id in s.sessions then ToCall(s.sessions[id], body) else NoOffer
  {
  }

  /** What the other steps do to the calls: a new one waits under its identifier, one that
      waits gives up and stays registered, or takes what is offered to it. */
  lemma CallsExactly(s: State, a: Action, idOf: seq<byte> -> int)
    requires Enabled(s, a) && !a.Packet?
    ensures var after := Apply(s, a, idOf);
            && (a.Register? ==>
                  && after.calls == s.calls + [Call(a.id, Waiting)] && after.offer == s.offer
                  && a.id in after.sessions && after.sessions[a.id] == |s.calls|
                  && (forall k :: k != a.id ==> (k in after.sessions <==> k in s.sessions))
                  && (forall k :: k != a.id && k in s.sessions ==> after.sessions[k] == s.sessions[k]))
            && (a.TimeOut? ==>
                  && after.sessions == s.sessions && after.offer == s.offer
                  && after.calls == s.calls[a.call := Call(s.calls[a.call].id, TimedOut)])
            && (a.Hello? ==> after == s.(offer := ToLoop))
            && (a.TakeHello? ==> after == s.(offer := NoOffer))
            && (a.Deliver? ==>
                  && after.sessions == s.sessions && after.offer.NoOffer?
                  && after.calls == s.calls[s.offer.call := Call(s.calls[s.offer.call].id, Got(s.offer.body))])
  {
  }

  /** In every interleaving the response that a call gets carries its identifier. */
  lemma ResponseCarriesId(actions: seq<Action>, idOf: seq<byte> -> int, i: nat)
    requires After(INITIAL, actions, idOf).Some?
    ensures var s := After(INITIAL, actions, idOf).value;
            i < |s.calls| && s.calls[i].phase.Got? ==> idOf(s.calls[i].phase.body) == s.calls[i].id
  {
    AfterKeepsInv(INITIAL, actions, idOf);
  }

  lemma StepKeepsOutcome(s: State, a: Action, idOf: seq<byte> -> int, i: nat)
    requires Inv(s, idOf) && Enabled(s, a) && i < |s.calls| && !s.calls[i].phase.Waiting?
    ensures i < |Apply(s, a, idOf).calls| && Apply(s, a, idOf).calls[i] == s.calls[i]
  {
  }

  /** A call gets at most one response: whatever happens later, one that has got a response
      or timed out keeps that outcome. */
  lemma {:induction false} OutcomeIsFinal(s: State, more: seq<Action>, idOf: seq<byte> -> int, i: nat)
    requires Inv(s, idOf) && After(s, more, idOf).Some?
    requires i < |s.calls| && !s.calls[i].phase.Waiting?
    ensures var s' := After(s, more, idOf).value; i < |s'.calls| && s'.calls[i] == s.calls[i]
  {
    if more != [] {
      var init := more[..|more| - 1];
      OutcomeIsFinal(s, init, idOf, i);
      AfterKeepsInv(s, init, idOf);
      StepKeepsOutcome(After(s, init, idOf).value, more[|more| - 1], idOf, i);
    }
  }

  // ----- when the receiver stops for ever

  /** The receiver offers a response to a call that no longer waits. */
  predicate Stuck(s: State) {
    s.offer.ToCall? && s.offer.call < |s.calls| && s.calls[s.offer.call].phase.TimedOut?
  }

  /** Such a receiver never takes another packet. */
  lemma {:induction false} StuckForever(s: State, more: seq<Action>, idOf: seq<byte> -> int)
    requires Stuck(s) && After(s, more, idOf).Some?
    ensures Stuck(After(s, more, idOf).value) && After(s, more, idOf).value.offer == s.offer
    ensures forall body :: !Enabled(After(s, more, idOf).value, Packet(body))
    ensures !Enabled(After(s, more, idOf).value, Hello)
  {
    if more != [] {
      StuckForever(s, more[..|more| - 1], idOf);
    }
  }

  /** Whether the receiver can take a packet, now or after what it offers has been taken. */
  predicate CanReceive(s: State, idOf: seq<byte> -> int) {
    || Enabled(s, Hello)
    || (Enabled(s, TakeHello) && Enabled(Apply(s, TakeHello, idOf), Hello))
    || (Enabled(s, Deliver) && Enabled(Apply(s, Deliver, idOf), Hello))
  }

  /** In every reachable state the receiver can take another packet, now or after handing
      over what it offers, exactly when it is not stuck like that. */
  lemma ReceivesUnlessStuck(actions: seq<Action>, idOf: seq<byte> -> int, body: seq<byte>)
    requires After(INITIAL, actions, idOf).Some?
    ensures var s := After(INITIAL, actions, idOf).value;
            !Stuck(s) <==> CanReceive(s, idOf)
  {
    AfterKeepsInv(INITIAL, actions, idOf);
  }

  /** The two ways to get stuck, told before the step: a packet with the identifier of a
      registered call that has timed out, or the timeout of the call that a response is
      being offered to. */
  predicate Sticks(s: State, a: Action, idOf: seq<byte> -> int) {
    || (a.Packet? && s.offer.NoOffer? && idOf(a.body) in s.sessions
        && var i := s.sessions[idOf(a.body)]; i < |s.calls| && s.calls[i].phase.TimedOut?)
    || (a.TimeOut? && s.offer.ToCall? && s.offer.call == a.call)
  }

  /** A step gets the receiver stuck exactly in these two ways. */
  lemma SticksExactly(s: State, a: Action, idOf: seq<byte> -> int)
    requires Inv(s, idOf) && Enabled(s, a) && !Stuck(s)
    ensures Stuck(Apply(s, a, idOf)) <==> Sticks(s, a, idOf)
  {
  }

  predicate StepSticks(actions: seq<Action>, idOf: seq<byte> -> int, k: nat)
    requires k < |actions|
  {
    After(INITIAL, actions[..k], idOf).Some? && Sticks(After(INITIAL, actions[..k], idOf).value, actions[k], idOf)
  }

  /** Some step of the run is one of the two. */
  ghost predicate SomeStepSticks(actions: seq<Action>, idOf: seq<byte> -> int) {
    exists k :: 0 <= k < |actions| && StepSticks(actions, idOf, k)
  }

  lemma StepsOfPrefix(actions: seq<Action>, idOf: seq<byte> -> int)
    requires actions != []
    ensures SomeStepSticks(actions, idOf)
       <==> SomeStepSticks(actions[..|actions| - 1], idOf) || StepSticks(actions, idOf, |actions| - 1)
  {
    var init := actions[..|actions| - 1];
    forall k | 0 <= k < |init| ensures StepSticks(actions, idOf, k) <==> StepSticks(init, idOf, k) {
      assert actions[..k] == init[..k];
    }
  }

  /** In every interleaving, the receiver has stopped for ever at the end of a run exactly
      when some step of it was a late response or a timeout under an offered response. */
  lemma {:induction false} StuckExactly(actions: seq<Action>, idOf: seq<byte> -> int)
    requires After(INITIAL, actions, idOf).Some?
    ensures Stuck(After(INITIAL, actions, idOf).value) <==> SomeStepSticks(actions, idOf)
  {
    if actions != [] {
      var init, n := actions[..|actions| - 1], |actions| - 1;
      var s := After(INITIAL, init, idOf).value;
      StuckExactly(init, idOf);
      AfterKeepsInv(INITIAL, init, idOf);
      StepsOfPrefix(actions, idOf);
      if Stuck(s) {
        StuckForever(s, [actions[n]], idOf);
        assert After(s, [actions[n]], idOf) == After(INITIAL, actions, idOf) by { assert [actions[n]][..0] == []; }
      } else {
        SticksExactly(s, actions[n], idOf);
        assert Sticks(s, actions[n], idOf) <==> StepSticks(actions, idOf, n);
      }
    }
  }

  lemma Two(s: State, a: Action, b: Action, idOf: seq<byte> -> int)
    requires Enabled(s, a) && Enabled(Apply(s, a, idOf), b)
    ensures After(s, [a, b], idOf) == Some(Apply(Apply(s, a, idOf), b, idOf))
  {
    assert [a, b][..1] == [a] && [a][..0] == [];
    assert After(s, [a], idOf) == Some(Apply(s, a, idOf));
  }

  /** A call that times out stays in the table; a response that comes late for it makes
      the receiver stuck. */
  lemma LateResponseSticks(s: State, idOf: seq<byte> -> int, i: nat, body: seq<byte>)
    requires s.offer.NoOffer? && Waits(s, i) && Registered(s, i) && idOf(body) == s.calls[i].id
    ensures After(s, [TimeOut(i), Packet(body)], idOf).Some?
    ensures Stuck(After(s, [TimeOut(i), Packet(body)], idOf).value)
  {
    Two(s, TimeOut(i), Packet(body), idOf);
  }

  /** So does a timeout between the lookup of the call and the delivery. */
  lemma TimeoutUnderOfferSticks(s: State, idOf: seq<byte> -> int, i: nat, body: seq<byte>)
    requires s.offer.NoOffer? && Waits(s, i) && Registered(s, i) && idOf(body) == s.calls[i].id
    ensures After(s, [Packet(body), TimeOut(i)], idOf).Some?
    ensures Stuck(After(s, [Packet(body), TimeOut(i)], idOf).value)
  {
    Two(s, Packet(body), TimeOut(i), idOf);
  }

  /** A run that ends like that, for any response. */
  lemma StuckRun(idOf: seq<byte> -> int, body: seq<byte>) returns (actions: seq<Action>)
    ensures |actions| == 3 && After(INITIAL, actions, idOf).Some? && Stuck(After(INITIAL, actions, idOf).value)
  {
    actions := [Register(idOf(body)), Packet(body), TimeOut(0)];
    assert actions[..2] == [Register(idOf(body)), Packet(body)];
    Two(INITIAL, Register(idOf(body)), Packet(body), idOf);
  }

  // ----- the program

  /** One method for each stretch of code between two points where another goroutine can
      run; the receiver handles a packet when it offers nothing. */
  class Receiver {
    var cloudSessions: map<int, nat>
    var calls: seq<Call>
    var offer: Offer

    function Now(): State
      reads this
    {
      State(cloudSessions, calls, offer)
    }

    ghost predicate Valid(idOf: seq<byte> -> int)
      reads this
    {
      Inv(Now(), idOf)
    }

    constructor ()
      ensures Now() == INITIAL
    {
      cloudSessions, calls, offer := map[], [], NoOffer;
    }

    /** A call registers its identifier and starts to wait. */
    method RegisterID(id: int) returns (call: nat)
      modifies this
      ensures Now() == State(old(cloudSessions)[id := call], old(calls) + [Call(id, Waiting)], old(offer))
      ensures call == |old(calls)|
    {
      call := |calls|;
      cloudSessions := cloudSessions[id := call];
      calls := calls + [Call(id, Waiting)];
    }

    /** A call stops waiting; its session stays. */
    method GiveUp(i: nat)
      requires Waits(Now(), i)
      modifies this
      ensures Now() == WithPhase(old(Now()), i, TimedOut)
    {
      calls := calls[i := calls[i].(phase := TimedOut)];
    }

    /** Handles a packet up to where it is handed over. The session of the call that is
        responded to is over. */
    method Handle(c: Crypto, packet: seq<byte>, key: seq<byte>, idOf: seq<byte> -> int) returns (r: Routed)
      requires offer.NoOffer?
      modifies this
      ensures r == Route(c, packet, key, idOf, old(cloudSessions))
      ensures Now() == if r.Crashed? then old(Now())
                       else if r.HelloReply? then Apply(old(Now()), Hello, idOf)
                       else Apply(old(Now()), Packet(ReadIn(c, packet, key).message.body), idOf)
    {
      var msg := new CloudMessage(BLANK.header, BLANK.body);
      assert msg.View() == BLANK;
      var error := msg.Read(c, Datagram(packet), key);
      if error == PartialBlocks {
        return Crashed;
      }
      if msg.header.length == HEADER_SIZE {
        offer := ToLoop;
        return HelloReply;
      }
      var body := Octets(msg.body);
      var id := idOf(body);
      if id in cloudSessions {
        var call := cloudSessions[id];
        cloudSessions := cloudSessions - {id};
        offer := ToCall(call, body);
        return Respond(call, body);
      }
      return Unhandled;
    }

    /** The keep-alive loop takes the hello reply. */
    method TakeHelloReply()
      requires offer.ToLoop?
      modifies this
      ensures Now() == old(Now()).(offer := NoOffer)
    {
      offer := NoOffer;
    }

    /** The call takes its response. */
    method TakeResponse()
      requires offer.ToCall? && Waits(Now(), offer.call)
      modifies this
      ensures Now() == WithPhase(old(Now()), old(offer).call, Got(old(offer).body)).(offer := NoOffer)
    {
      calls := calls[offer.call := calls[offer.call].(phase := Got(offer.body))];
      offer := NoOffer;
    }
  }

  /** What happens to the program: a packet arrives, or a goroutine takes a step. */
  datatype Event = Arrives(packet: seq<byte>) | Local(action: Action)

  /** The step of the machine for an event, unless it stops the program. */
  function StepOf(c: Crypto, e: Event, key: seq<byte>): Option<Action> {
    match e
    case Local(a) => if a.Hello? || a.Packet? then None else Some(a)
    case Arrives(packet) =>
      var r := ReadIn(c, packet, key);
      if r.error == PartialBlocks then None
      else if r.message.header.length == HEADER_SIZE then Some(Hello)
      else Some(Packet(r.message.body))
  }

  method Step(receiver: Receiver, c: Crypto, e: Event, key: seq<byte>, idOf: seq<byte> -> int)
    requires StepOf(c, e, key).Some? && Enabled(receiver.Now(), StepOf(c, e, key).value)
    modifies receiver
    ensures receiver.Now() == Apply(old(receiver.Now()), StepOf(c, e, key).value, idOf)
  {
    match e
    case Arrives(packet) => var _ := receiver.Handle(c, packet, key, idOf);
    case Local(a) =>
      match a
      case Register(id) => var _ := receiver.RegisterID(id);
      case TimeOut(i) => receiver.GiveUp(i);
      case TakeHello => receiver.TakeHelloReply();
      case Deliver => receiver.TakeResponse();
  }

  lemma {:induction false} AfterPrefix(s: State, actions: seq<Action>, i: nat, idOf: seq<byte> -> int)
    requires After(s, actions, idOf).Some? && i <= |actions|
    ensures After(s, actions[..i], idOf).Some?
    decreases |actions|
  {
    if i == |actions| {
      assert actions[..i] == actions;
    } else {
      AfterPrefix(s, actions[..|actions| - 1], i, idOf);
      assert actions[..|actions| - 1][..i] == actions[..i];
    }
  }

  /** Any run of packets and steps. */
  method RunEvents(receiver: Receiver, c: Crypto, events: seq<Event>, key: seq<byte>, idOf: seq<byte> -> int,
                   ghost actions: seq<Action>)
    requires receiver.Now() == INITIAL && After(INITIAL, actions, idOf).Some?
    requires |actions| == |events| && forall k :: 0 <= k < |events| ==> StepOf(c, events[k], key) == Some(actions[k])
    modifies receiver
    ensures Some(receiver.Now()) == After(INITIAL, actions, idOf)
    ensures receiver.Valid(idOf) && (Stuck(receiver.Now()) <==> SomeStepSticks(actions, idOf))
  {
    for k := 0 to |events|
      invariant Some(receiver.Now()) == After(INITIAL, actions[..k], idOf)
    {
      AfterPrefix(INITIAL, actions, k + 1, idOf);
      assert actions[..k + 1][..k] == actions[..k];
      Step(receiver, c, events[k], key, idOf);
    }
    assert actions[..|events|] == actions;
    AfterKeepsInv(INITIAL, actions, idOf);
    StuckExactly(actions, idOf);
  }
}
