/** Reassembly of console responses that span several packets. */
module Rcon {
  import opened Domain

  const PACKET_SIZE := 4096

  datatype Packet = Packet(id: int, payload: string)

  /** The stream of packets a connection will yield; reading past its end is a read error. */
  class Connection {
    const packets: seq<Packet>
    var pos: nat

    ghost predicate Valid()
      reads this
    {
      pos <= |packets|
    }

    constructor (packets: seq<Packet>)
      ensures Valid() && pos == 0 && this.packets == packets
    {
      this.packets := packets;
      pos := 0;
    }

    method Read() returns (r: Option<Packet>)
      requires Valid()
      modifies this
      ensures Valid()
      ensures if old(pos) < |packets| then r == Some(packets[old(pos)]) && pos == old(pos) + 1
              else r.None? && pos == old(pos)
    {
      if pos == |packets| {
        return None;
      }
      r := Some(packets[pos]);
      pos := pos + 1;
    }

    /** Collects the payloads with the command's id up to and including the first short one. */
    method RconLarge(cmdID: int) returns (r: Option<string>)
      requires Valid()
      modifies this
      ensures Valid()
      ensures var rest := packets[old(pos)..];
              var k := FirstShort(rest, cmdID);
              if k < |rest| then pos == old(pos) + k + 1 && r == Some(Collected(rest[..k + 1], cmdID))
              else pos == |packets| && r.None?
      ensures r.Some? ==>
                && old(pos) < pos && packets[pos - 1].id == cmdID && |packets[pos - 1].payload| < 4096
                && forall i :: old(pos) <= i < pos - 1 && packets[i].id == cmdID ==> |packets[i].payload| >= 4096
      ensures r.None? ==>
                forall i :: old(pos) <= i < |packets| && packets[i].id == cmdID ==> |packets[i].payload| >= 4096
    {
      var response := "";
      ghost var rest := packets[pos..];
      ghost var k := FirstShort(rest, cmdID);
      while true
        invariant old(pos) <= pos <= |packets| && pos - old(pos) <= k
        invariant response == Collected(rest[..pos - old(pos)], cmdID)
        invariant forall i :: old(pos) <= i < pos && packets[i].id == cmdID ==> |packets[i].payload| >= 4096
        decreases |packets| - pos
      {
        ghost var n := pos - old(pos);
        FirstShortIs(rest, cmdID, n);
        var packet := Read();
        if packet.None? {
          return None;
        }
        assert rest[..n + 1][..n] == rest[..n] && rest[n] == packet.value;
        if packet.value.id == cmdID {
          response := response + packet.value.payload;
          if |packet.value.payload| < PACKET_SIZE {
            return Some(response);
          }
        }
      }
    }
  }

  predicate Final(p: Packet, id: int) {
    p.id == id && |p.payload| < PACKET_SIZE
  }

  /** The first packet that ends the response, or the number of packets. */
  function FirstShort(ps: seq<Packet>, id: int): (k: nat)
    ensures k <= |ps|
  {
    if ps == [] || Final(ps[0], id) then 0 else 1 + FirstShort(ps[1..], id)
  }

  lemma {:induction false} FirstShortIs(ps: seq<Packet>, id: int, n: nat)
    ensures n < FirstShort(ps, id) ==> !Final(ps[n], id)
    ensures n == FirstShort(ps, id) < |ps| ==> Final(ps[n], id)
  {
    if ps == [] || Final(ps[0], id) || n == 0 {
    } else {
      FirstShortIs(ps[1..], id, n - 1);
    }
  }

  /** The payloads that carry the id, joined. */
  function Collected(ps: seq<Packet>, id: int): string {
    if ps == [] then ""
    else
      var n := |ps| - 1;
      Collected(ps[..n], id) + if ps[n].id == id then ps[n].payload else ""
  }

  /** The packets that carry the id. */
  function Own(ps: seq<Packet>, id: int): seq<Packet> {
    if ps == [] then [] else (if ps[0].id == id then [ps[0]] else []) + Own(ps[1..], id)
  }

  /** How a server cuts a body: full packets, then one short, possibly empty, packet. */
  function Cut(body: string, id: int): seq<Packet>
    decreases |body|
  {
    if |body| < PACKET_SIZE then [Packet(id, body)]
    else [Packet(id, body[..PACKET_SIZE])] + Cut(body[PACKET_SIZE..], id)
  }

  lemma {:induction false} CollectedCons(p: Packet, ps: seq<Packet>, id: int)
    ensures Collected([p] + ps, id) == (if p.id == id then p.payload else "") + Collected(ps, id)
  {
    if ps == [] {
      assert ([p] + ps)[..0] == [];
      assert Collected([], id) == "";
    } else {
      var n := |ps| - 1;
      CollectedCons(p, ps[..n], id);
      assert ([p] + ps)[..n + 1] == [p] + ps[..n];
    }
  }

  /** A stream whose own packets are the cut body ends with the body's last packet. */
  lemma {:induction false} CutInStream(body: string, id: int, ps: seq<Packet>, tail: seq<Packet>)
    requires ps != [] && ps[|ps| - 1].id == id && Own(ps, id) == Cut(body, id)
    ensures FirstShort(ps + tail, id) == |ps| - 1
    ensures Collected(ps, id) == body
    decreases |ps|
  {
    var rest := ps[1..];
    assert ps == [ps[0]] + rest;
    CollectedCons(ps[0], rest, id);
    assert (ps + tail)[1..] == rest + tail;
    if ps[0].id != id {
      CutInStream(body, id, rest, tail);
    } else {
      assert Own(ps, id)[0] == ps[0] && Own(ps, id)[1..] == Own(rest, id);
      if |body| < PACKET_SIZE {
        if rest != [] {
          OwnLast(rest, id);
        }
        assert Collected([], id) == "";
      } else {
        assert Cut(body, id)[1..] == Cut(body[PACKET_SIZE..], id);
        assert rest != [];
        CutInStream(body[PACKET_SIZE..], id, rest, tail);
        assert body == body[..PACKET_SIZE] + body[PACKET_SIZE..];
      }
    }
  }

  lemma {:induction false} OwnLast(ps: seq<Packet>, id: int)
    requires ps != [] && ps[|ps| - 1].id == id
    ensures Own(ps, id) != []
  {
    if |ps| <= 1 {
    } else {
      OwnLast(ps[1..], id);
    }
  }

  /**
  Any body comes back whole, however foreign packets are mixed in, and nothing
  behind its last packet is consumed.
  */
  method ReceiveBody(body: string, id: int, ps: seq<Packet>, tail: seq<Packet>)
    returns (r: Option<string>, consumed: nat)
    requires ps != [] && ps[|ps| - 1].id == id && Own(ps, id) == Cut(body, id)
    ensures r == Some(body) && consumed == |ps|
  {
    var conn := new Connection(ps + tail);
    CutInStream(body, id, ps, tail);
    assert (ps + tail)[0..] == ps + tail && (ps + tail)[..|ps|] == ps;
    r := conn.RconLarge(id);
    consumed := conn.pos;
  }

  /** Without a short packet of its own the loop never returns a response. */
  lemma {:induction false} NoShortNoResponse(ps: seq<Packet>, id: int)
    ensures FirstShort(ps, id) == |ps| <==> forall i :: 0 <= i < |ps| ==> !Final(ps[i], id)
  {
    if ps == [] {
    } else {
      NoShortNoResponse(ps[1..], id);
      assert forall i :: 0 <= i < |ps[1..]| ==> ps[1..][i] == ps[i + 1];
      if forall i :: 0 <= i < |ps| ==> !Final(ps[i], id) {
        assert !Final(ps[0], id);
      }
    }
  }
}
