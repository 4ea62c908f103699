/** Inbound game-server log packets: decoding, routing to a host by secret, and counting. */
module Remote {
  import opened Domain
  import opened Tally
  import opened Text

  const BUFFER_SIZE := 1024
  const PLAIN := 'R'
  const SECRET := 'S'
  const NUL := '\0'

  /** What one read of the socket yields. */
  datatype Read = Timeout | Closed | Faulty | Data(bytes: string)

  /** What the loop does with one read; `Crash` is a slice out of bounds, `Ended` a closed socket. */
  datatype Outcome = Routed(host: string, line: string, secret: int) | Ignored | Skipped | Crash | Ended

  function ReadLen(bytes: string): nat {
    if |bytes| <= BUFFER_SIZE then |bytes| else BUFFER_SIZE
  }

  /** The freshly zeroed buffer after the read; longer packets are cut off. */
  function Buffer(bytes: string): (r: string)
    ensures |r| == BUFFER_SIZE
  {
    bytes[..ReadLen(bytes)] + seq(BUFFER_SIZE - ReadLen(bytes), _ => NUL)
  }

  predicate MarkerAt(s: string, i: nat) {
    i + 1 < |s| && s[i] == 'L' && s[i + 1] == ' '
  }

  /** Where the first "L " starts, or the length if there is none. */
  function Marker(s: string): (n: nat)
    ensures n <= |s|
  {
    if s == [] || MarkerAt(s, 0) then 0 else Marker(s[1..]) + 1
  }

  lemma {:induction false} MarkerIsFirst(s: string)
    ensures Marker(s) < |s| ==> MarkerAt(s, Marker(s))
    ensures forall i :: 0 <= i < Marker(s) ==> !MarkerAt(s, i)
  {
    if s == [] || MarkerAt(s, 0) {
    } else {
      MarkerIsFirst(s[1..]);
      forall i | 0 < i < Marker(s)
        ensures !MarkerAt(s, i)
      {
        assert !MarkerAt(s[1..], i - 1);
      }
    }
  }

  function Decode(hosts: map<int, string>, buffer: string, readLen: nat): Outcome
    requires |buffer| == BUFFER_SIZE && readLen <= BUFFER_SIZE
  {
    if buffer[4] == PLAIN then Routed("", Trim(buffer), 0)
    else if buffer[4] != SECRET then Ignored
    else
      var idx := Marker(buffer);
      if idx == |buffer| then Skipped
      else if idx < 5 then Crash
      else
        var secret := ParseInt32(buffer[5..idx]);
        if secret.None? then Skipped
        else if idx > readLen then Crash
        else
          var line := Trim(buffer[idx..readLen]);
          if secret.value !in hosts then Skipped else Routed(hosts[secret.value], line, secret.value)
  }

  function DecodePacket(hosts: map<int, string>, bytes: string): Outcome {
    Decode(hosts, Buffer(bytes), ReadLen(bytes))
  }

  /** The marker lies inside the bytes that were read, because the rest of the buffer is zero. */
  lemma MarkerInsideRead(bytes: string)
    requires Marker(Buffer(bytes)) < BUFFER_SIZE
    ensures Marker(Buffer(bytes)) + 1 < ReadLen(bytes)
  {
    MarkerIsFirst(Buffer(bytes));
  }

  /** Decoding crashes exactly for a secret packet whose first "L " comes before its sixth byte. */
  lemma CrashIff(hosts: map<int, string>, bytes: string)
    ensures DecodePacket(hosts, bytes).Crash? <==> Buffer(bytes)[4] == SECRET && Marker(Buffer(bytes)) < 5
  {
    if Marker(Buffer(bytes)) < BUFFER_SIZE {
      MarkerInsideRead(bytes);
    }
  }

  /** Four bytes in front of the marker are not enough. */
  lemma CrashingPacket(hosts: map<int, string>)
    ensures DecodePacket(hosts, "L ..S") == Crash
  {
    var buffer := Buffer("L ..S");
    assert buffer[0] == 'L' && buffer[1] == ' ' && buffer[4] == SECRET;
    assert MarkerAt(buffer, 0);
  }

  /** Zero bytes at the end survive trimming. */
  lemma {:induction false} TrimKeepsNul(s: string)
    requires s != [] && s[|s| - 1] == NUL
    ensures Trim(s) != [] && Trim(s)[|Trim(s)| - 1] == NUL
  {
    var n := LeadSpace(s);
    if n == 0 {
    } else {
      TrimKeepsNul(s[n..]);
    }
  }

  /** A plain packet goes to the empty host, and a short one keeps the zero padding of the buffer. */
  lemma PlainPacketKeepsPadding(hosts: map<int, string>, bytes: string)
    requires 5 <= |bytes| < BUFFER_SIZE && bytes[4] == PLAIN
    ensures var o := DecodePacket(hosts, bytes);
            o.Routed? && o.host == "" && o.secret == 0 && o.line != "" && o.line[|o.line| - 1] == NUL
  {
    TrimKeepsNul(Buffer(bytes));
  }

  // ---------------------------------------------------------------- round trip

  /** A packet as a game server sends it. */
  function Encode(secret: int, body: string): string {
    "\U{FF}\U{FF}\U{FF}\U{FF}S" + Decimal(secret) + body
  }

  lemma DecimalHasNoL(n: int)
    ensures forall i :: 0 <= i < |Decimal(n)| ==> Decimal(n)[i] != 'L'
  {
    var digits := Digits(if n < 0 then -n else n);
    assert AllDigits(digits);
  }

  lemma MarkerAfter(a: string, b: string)
    requires forall i :: 0 <= i < |a| ==> a[i] != 'L'
    requires MarkerAt(b, 0)
    ensures Marker(a + b) == |a|
  {
    MarkerIsFirst(a + b);
    assert MarkerAt(a + b, |a|);
    assert forall i :: 0 <= i < |a| ==> !MarkerAt(a + b, i);
  }

  /** Every packet with a known secret and a body that fits reaches its host as the trimmed body. */
  lemma PacketRoundTrip(hosts: map<int, string>, secret: int, body: string)
    requires MIN_INT32 <= secret <= MAX_INT32 && secret in hosts
    requires "L " <= body && |Encode(secret, body)| <= 1024
    ensures DecodePacket(hosts, Encode(secret, body)) == Routed(hosts[secret], Trim(body), secret)
  {
    DecimalHasNoL(secret);
    SecretPacketParts(Decimal(secret), body);
    ParseDecimal(secret);
  }

  /** The line of a plain packet is the packet and the rest of the zeroed buffer, header included. */
  lemma PlainPacket(hosts: map<int, string>, body: string)
    ensures var bytes := "\U{FF}\U{FF}\U{FF}\U{FF}R" + body;
            && (|bytes| < 1024 ==>
                  DecodePacket(hosts, bytes) == Routed("", bytes + seq(1024 - |bytes|, _ => '\0'), 0))
            && (|bytes| >= 1024 ==> DecodePacket(hosts, bytes) == Routed("", TrimRight(bytes[..1024]), 0))
  {
    var bytes := "\U{FF}\U{FF}\U{FF}\U{FF}R" + body;
    var buffer := Buffer(bytes);
    assert buffer[0] == '\U{FF}' && buffer[4] == 'R';
    assert TrimLeft(buffer) == buffer;
    if |bytes| < 1024 {
      assert bytes[..|bytes|] == bytes;
      assert buffer == bytes + seq(1024 - |bytes|, _ => '\0');
      assert buffer[1023] == '\0';
      assert TrimRight(buffer) == buffer;
    } else {
      assert buffer == bytes[..1024];
    }
  }

  /** A packet of any other kind is passed on to nobody, but counted under no secret. */
  lemma OtherPacket(hosts: map<int, string>, bytes: string)
    requires |bytes| >= 5 && bytes[4] != 'R' && bytes[4] != 'S'
    ensures DecodePacket(hosts, bytes) == Ignored && Counted([DecodePacket(hosts, bytes)]) == [0]
  {
    assert Buffer(bytes)[4] == bytes[4];
    CountedOne(Ignored);
  }

  /** A secret packet is skipped when the secret is no number or belongs to no server. */
  lemma UnknownSecret(hosts: map<int, string>, secret: string, body: string)
    requires "L " <= body && 'L' !in secret
    requires var bytes := "\U{FF}\U{FF}\U{FF}\U{FF}S" + secret + body; |bytes| <= 1024
    requires ParseInt32(secret).None? || ParseInt32(secret).value !in hosts
    ensures DecodePacket(hosts, "\U{FF}\U{FF}\U{FF}\U{FF}S" + secret + body) == Skipped
  {
    var bytes := "\U{FF}\U{FF}\U{FF}\U{FF}S" + secret + body;
    SecretPacketParts(secret, body);
  }

  lemma SecretPacketParts(secret: string, body: string)
    requires "L " <= body && 'L' !in secret
    requires |"\U{FF}\U{FF}\U{FF}\U{FF}S" + secret + body| <= BUFFER_SIZE
    ensures var bytes := "\U{FF}\U{FF}\U{FF}\U{FF}S" + secret + body;
            var buffer := Buffer(bytes);
            && buffer[4] == SECRET && Marker(buffer) == 5 + |secret| < |bytes| == ReadLen(bytes)
            && buffer[5..5 + |secret|] == secret && buffer[5 + |secret|..|bytes|] == body
  {
    var pre := "\U{FF}\U{FF}\U{FF}\U{FF}S" + secret;
    var bytes := pre + body;
    var buffer := Buffer(bytes);
    var rest := body + seq(BUFFER_SIZE - |bytes|, _ => NUL);
    assert forall i :: 0 <= i < |pre| ==> pre[i] != 'L';
    assert bytes[..|bytes|] == bytes;
    assert buffer == pre + rest;
    assert rest[0] == body[0] == "L "[0] && rest[1] == body[1] == "L "[1];
    MarkerAfter(pre, rest);
  }

  /** A secret packet without a marker is skipped. */
  lemma NoMarker(hosts: map<int, string>, bytes: string)
    requires 5 <= |bytes| <= 1024 && bytes[4] == 'S'
    requires forall i :: 0 <= i < |bytes| - 1 ==> !(bytes[i] == 'L' && bytes[i + 1] == ' ')
    ensures DecodePacket(hosts, bytes) == Skipped
  {
    var buffer := Buffer(bytes);
    MarkerIsFirst(buffer);
    if Marker(buffer) < |buffer| {
      MarkerInsideRead(bytes);
    }
  }

  // ---------------------------------------------------------------- counting

  function OutcomeOf(hosts: map<int, string>, r: Read): Outcome {
    match r
    case Timeout => Skipped
    case Faulty => Skipped
    case Closed => Ended
    case Data(bytes) => DecodePacket(hosts, bytes)
  }

  function Outcomes(hosts: map<int, string>, inputs: seq<Read>): (r: seq<Outcome>)
    ensures |r| == |inputs|
  {
    seq(|inputs|, i requires 0 <= i < |inputs| => OutcomeOf(hosts, inputs[i]))
  }

  /** Where the loop stops: at a closed socket or a crash, or when the reads end. */
  function StopAt(os: seq<Outcome>): (n: nat)
    ensures n <= |os|
  {
    if os == [] || Stops(os[0]) then 0 else 1 + StopAt(os[1..])
  }

  predicate Stops(o: Outcome) {
    o.Ended? || o.Crash?
  }

  lemma {:induction false} StopAtIsFirst(os: seq<Outcome>, i: nat)
    requires i <= StopAt(os) && i < |os|
    ensures Stops(os[i]) <==> i == StopAt(os)
  {
    if i == 0 {
    } else {
      StopAtIsFirst(os[1..], i - 1);
    }
  }

  /** The outcomes the loop gets to. */
  function Handled(os: seq<Outcome>): seq<Outcome> {
    os[..StopAt(os)]
  }

  /** The secrets under which packets are counted, in order; a skipped packet is not counted. */
  function Counted(os: seq<Outcome>): seq<int> {
    if os == [] then []
    else
      var n := |os| - 1;
      Counted(os[..n]) + (if os[n].Routed? then [os[n].secret] else if os[n].Ignored? then [0] else [])
  }

  /** A routed packet counts under its secret, one of another kind under none, a skipped one not at all. */
  lemma CountedOne(o: Outcome)
    ensures Counted([o]) == match o
                            case Routed(_, _, secret) => [secret]
                            case Ignored => [0]
                            case _ => []
    ensures RoutedLines([o]) == if o.Routed? then [(o.host, o.line)] else []
  {
    assert [o][..0] == [];
    assert Counted([]) == [] && RoutedLines([]) == [];
  }

  lemma {:induction false} CountedConcat(a: seq<Outcome>, b: seq<Outcome>)
    ensures Counted(a + b) == Counted(a) + Counted(b)
    decreases |b|
  {
    if b == [] {
      assert a + b == a;
    } else {
      var n := |b| - 1;
      var last := if b[n].Routed? then [b[n].secret] else if b[n].Ignored? then [0] else [];
      CountedConcat(a, b[..n]);
      assert (a + b)[..|a| + n] == a + b[..n];
      assert Counted(a) + Counted(b[..n]) + last == Counted(a) + (Counted(b[..n]) + last);
    }
  }

  lemma {:induction false} RoutedConcat(a: seq<Outcome>, b: seq<Outcome>)
    ensures RoutedLines(a + b) == RoutedLines(a) + RoutedLines(b)
    decreases |b|
  {
    if b == [] {
      assert a + b == a;
    } else {
      var n := |b| - 1;
      var last := if b[n].Routed? then [(b[n].host, b[n].line)] else [];
      RoutedConcat(a, b[..n]);
      assert (a + b)[..|a| + n] == a + b[..n];
      assert RoutedLines(a) + RoutedLines(b[..n]) + last == RoutedLines(a) + (RoutedLines(b[..n]) + last);
    }
  }

  lemma {:induction false} HandledConcat(a: seq<Outcome>, b: seq<Outcome>)
    ensures Handled(a + b) == if StopAt(a) < |a| then Handled(a) else a + Handled(b)
    ensures StopAt(a) < |a| ==> StopAt(a + b) == StopAt(a)
    ensures StopAt(a) == |a| ==> StopAt(a + b) == |a| + StopAt(b)
    decreases |a|
  {
    if a == [] {
      assert a + b == b;
    } else {
      assert (a + b)[0] == a[0] && (a + b)[1..] == a[1..] + b;
      HandledConcat(a[1..], b);
    }
  }

  lemma HandledAround(a: seq<Outcome>, b: seq<Outcome>)
    ensures Handled(a + ([Skipped] + b)) == if StopAt(a) < |a| then Handled(a) else a + ([Skipped] + Handled(b))
  {
    HandledConcat(a, [Skipped] + b);
    HandledConcat([Skipped], b);
    assert [Skipped][1..] == [];
  }

  /** A skipped packet anywhere among the reads changes neither the counters nor what is passed on. */
  lemma SkippedLeavesNoTrace(a: seq<Outcome>, b: seq<Outcome>)
    ensures Counted(Handled(a + ([Skipped] + b))) == Counted(Handled(a + b))
    ensures RoutedLines(Handled(a + ([Skipped] + b))) == RoutedLines(Handled(a + b))
  {
    HandledAround(a, b);
    HandledConcat(a, b);
    var h := Handled(b);
    CountedConcat(a, [Skipped] + h);
    CountedConcat([Skipped], h);
    CountedConcat(a, h);
    RoutedConcat(a, [Skipped] + h);
    RoutedConcat([Skipped], h);
    RoutedConcat(a, h);
    CountedOne(Skipped);
  }

  /** The lines passed on, with the host they are passed on for. */
  function RoutedLines(os: seq<Outcome>): seq<(string, string)> {
    if os == [] then []
    else
      var n := |os| - 1;
      RoutedLines(os[..n]) + if os[n].Routed? then [(os[n].host, os[n].line)] else []
  }

  class Listener {
    const hosts: map<int, string>
    const secret: int
    var counts: map<int, int>
    var insecure: nat
    ghost var packets: seq<int>

    ghost predicate Valid()
      reads this
    {
      Tallies(counts, packets) && Total(counts) == |packets|
    }

    constructor (hosts: map<int, string>)
      ensures Valid() && packets == [] && this.hosts == hosts && insecure == 0 && secret == 0
    {
      this.hosts := hosts;
      secret := 0;
      counts := map[];
      insecure := 0;
      packets := [];
    }

    method Bump(s: int)
      requires Valid()
      modifies this`counts, this`packets
      ensures Valid() && packets == old(packets) + [s]
    {
      TallySnoc(counts, packets, s);
      TotalUpdate(counts, s, if s in counts then counts[s] + 1 else 1);
      if s !in counts {
        counts := counts[s := 1];
      } else {
        counts := counts[s := counts[s] + 1];
      }
      packets := packets + [s];
    }

    /** The part of the loop body that follows decoding; false when the loop is over. */
    method Handle(o: Outcome, plain: bool, ghost done: seq<Outcome>, routed: seq<(string, string)>)
      returns (more: bool, routed': seq<(string, string)>)
      requires Valid() && packets == Counted(done) && routed == RoutedLines(done)
      modifies this
      ensures Valid()
      ensures more <==> !Stops(o)
      ensures insecure == old(insecure) + if o.Routed? && plain && secret > 0 then 1 else 0
      ensures var all := if more then done + [o] else done;
              packets == Counted(all) && routed' == RoutedLines(all)
    {
      assert (done + [o])[..|done|] == done;
      more, routed' := true, routed;
      match o
      case Ended => more := false;
      case Crash => more := false;
      case Skipped =>
      case Ignored =>
        Bump(0);
      case Routed(host, line, s) =>
        if plain && secret > 0 {
          insecure := insecure + 1;
        }
        routed' := routed + [(host, line)];
        Bump(s);
    }

    /**
    The read loop. The per-secret counters are exactly the numbers of packets
    handled for each secret and add up to the number not skipped, and what is
    passed on is what the packets decode to.
    */
    method Start(inputs: seq<Read>) returns (routed: seq<(string, string)>)
      requires Valid() && packets == []
      modifies this
      ensures Valid()
      ensures packets == Counted(Handled(Outcomes(hosts, inputs)))
      ensures routed == RoutedLines(Handled(Outcomes(hosts, inputs)))
      ensures secret <= 0 ==> insecure == old(insecure)
    {
      routed := [];
      ghost var os := Outcomes(hosts, inputs);
      ghost var stop := StopAt(os);
      assert os[..0] == [];
      for i := 0 to |inputs|
        invariant Valid() && packets == Counted(os[..i]) && routed == RoutedLines(os[..i])
        invariant i <= stop
        invariant secret <= 0 ==> insecure == old(insecure)
      {
        var r := inputs[i];
        var o := OutcomeOf(hosts, r);
        assert o == os[i] && os[..i + 1] == os[..i] + [o];
        StopAtIsFirst(os, i);
        var more: bool;
        more, routed := Handle(o, r.Data? && Buffer(r.bytes)[4] == PLAIN, os[..i], routed);
        if !more {
          return;
        }
      }
    }
  }
}
