/** The ring buffers between the radio and the rest: outgoing packets, without
    duplicates, and incoming ones, with bounded room. */
module Queues {
  import opened Basics

  const MAX_QUEUE := 5

  /** The `k`-th slot of the ring from `offs` on. */
  function Slot(offs: nat, k: nat): (i: nat)
    ensures i < MAX_QUEUE
  {
    (offs + k) % MAX_QUEUE
  }

  lemma SlotsDiffer(offs: nat, j: nat, k: nat)
    requires j < MAX_QUEUE && k < MAX_QUEUE && offs < MAX_QUEUE && j != k
    ensures Slot(offs, j) != Slot(offs, k)
  {
  }

  ghost predicate Distinct(s: seq<Bytes>) {
    forall i, j :: 0 <= i < j < |s| ==> s[i] != s[j]
  }

  /** One way out of the station. A packet is stored with its length before it. */
  class Face {
    const queue: array<Bytes>
    var queueLen: nat
    var offs: nat
    var nextSend: nat
    const nextDelta: nat
    const sends: bool

    ghost predicate Valid()
      reads this, queue
    {
      queue.Length == MAX_QUEUE && queueLen <= MAX_QUEUE && offs < MAX_QUEUE && nextDelta >= 10 && Distinct(Contents())
      && forall k :: 0 <= k < queueLen ==> 0 < |Contents()[k]| && Contents()[k][0] == |Contents()[k]| - 1
    }

    /** The packets that wait, oldest first. */
    ghost function Contents(): (s: seq<Bytes>)
      reads this, queue
      requires queue.Length == MAX_QUEUE
      ensures |s| == queueLen
    {
      seq(queueLen, k requires 0 <= k < queueLen reads this, queue requires queue.Length == MAX_QUEUE => queue[Slot(offs, k)])
    }

    constructor (sends: bool, delta: nat)
      requires delta >= 10
      ensures Valid() && Contents() == [] && fresh(queue) && this.sends == sends
    {
      queue := new Bytes[MAX_QUEUE](i => []);
      queueLen, offs, nextSend, nextDelta := 0, 0, 0, delta;
      this.sends := sends;
    }

    /** A packet is appended, unless there is no room or it waits already. */
    method Enqueue(buf: Bytes)
      requires Valid() && 0 < |buf| && buf[0] == |buf| - 1
      modifies this`queueLen, queue
      ensures Valid()
      ensures Contents() == if old(queueLen) >= MAX_QUEUE || buf in old(Contents()) then old(Contents()) else old(Contents()) + [buf]
    {
      if queueLen >= MAX_QUEUE {
        return;
      }
      var k := 0;
      while k < queueLen && queue[(offs + k) % MAX_QUEUE] != buf
        invariant 0 <= k <= queueLen
        invariant forall i :: 0 <= i < k ==> Contents()[i] != buf
      {
        assert Contents()[k] == queue[Slot(offs, k)];
        k := k + 1;
      }
      if k == queueLen {
        ghost var before := Contents();
        forall i | 0 <= i < queueLen ensures Slot(offs, i) != Slot(offs, queueLen) {
          SlotsDiffer(offs, i, queueLen);
        }
        queue[(offs + queueLen) % MAX_QUEUE] := buf;
        queueLen := queueLen + 1;
        assert Contents() == before + [buf];
      } else {
        assert Contents()[k] == queue[Slot(offs, k)] == buf;
      }
    }

    /** The oldest packet leaves, if its time has come. */
    method Dequeue(now: nat, random: nat) returns (sent: Option<Bytes>)
      requires Valid()
      modifies this`queueLen, this`offs, this`nextSend
      ensures Valid()
      ensures if sends && old(queueLen) > 0 && now >= old(nextSend)
        then sent == Some(old(Contents())[0][1..]) && Contents() == old(Contents())[1..] && now + nextDelta <= nextSend < now + nextDelta + nextDelta / 10
        else sent == None && Contents() == old(Contents()) && nextSend == old(nextSend)
    {
      hide Slot, Distinct;
      if !sends || queueLen <= 0 || now < nextSend {
        return None;
      }
      ghost var before := Contents();
      nextSend := now + nextDelta + random % (nextDelta / 10);
      var buf := queue[offs];
      FirstSlot(offs);
      assert before[0] == queue[Slot(offs, 0)] == buf;
      assert buf[1..1 + buf[0]] == buf[1..];
      sent := Some(buf[1..1 + buf[0]]);
      offs := (offs + 1) % MAX_QUEUE;
      queueLen := queueLen - 1;
      forall k | 0 <= k < queueLen ensures Contents()[k] == before[k + 1] {
        SlotAhead(old(offs), k);
      }
      assert Contents() == before[1..];
      DistinctTail(before);
    }
  }

  lemma DistinctTail(s: seq<Bytes>)
    requires Distinct(s) && s != []
    ensures Distinct(s[1..])
  {
  }

  lemma FirstSlot(offs: nat)
    requires offs < MAX_QUEUE
    ensures Slot(offs, 0) == offs
  {
  }

  lemma SlotAhead(offs: nat, k: nat)
    ensures Slot((offs + 1) % MAX_QUEUE, k) == Slot(offs, k + 1)
  {
  }

  // ------------------------------------------------------------ reception

  const BUF_CNT := 4
  const MAX_LEN := 127
  const SLOT_LEN := 128

  function Received(pkt: Bytes): (p: Bytes)
    ensures |p| == (if |pkt| <= 127 then |pkt| else 127) && p == pkt[..|p|]
  {
    if |pkt| <= MAX_LEN then pkt else pkt[..MAX_LEN]
  }

  /** What was heard, up to the first empty packet. */
  function Heard(air: seq<Bytes>): seq<Bytes> {
    if air == [] || air[0] == [] then [] else [Received(air[0])] + Heard(air[1..])
  }

  /** The place of the `k`-th oldest of `cnt` packets, when the next one goes to `offs`. */
  function Place(offs: nat, cnt: nat, k: nat): (i: nat)
    requires cnt <= BUF_CNT
    ensures i < BUF_CNT
  {
    (offs + BUF_CNT - cnt + k) % BUF_CNT
  }

  lemma PlacesKept(offs: nat, cnt: nat, k: nat)
    requires cnt < BUF_CNT && offs < BUF_CNT && k < cnt
    ensures Place((offs + 1) % BUF_CNT, cnt + 1, k) == Place(offs, cnt, k) != offs
    ensures Place((offs + 1) % BUF_CNT, cnt + 1, cnt) == offs
  {
  }

  lemma NewPlace(offs: nat, cnt: nat)
    requires cnt < BUF_CNT && offs < BUF_CNT
    ensures Place((offs + 1) % BUF_CNT, cnt + 1, cnt) == offs
  {
  }

  lemma PlacesMove(offs: nat, cnt: nat, k: nat)
    requires 0 < cnt <= BUF_CNT && offs < BUF_CNT && k < cnt - 1
    ensures Place(offs, cnt - 1, k) == Place(offs, cnt, k + 1)
  {
  }

  /** Packets received by radio, in a flat buffer; `offs` is where the next one goes. */
  class RingBuffer {
    const buf: array<byte>
    var cnt: nat
    var offs: nat

    ghost predicate Valid()
      reads this, buf
    {
      && buf.Length == BUF_CNT * SLOT_LEN && cnt <= BUF_CNT && offs < BUF_CNT
      && forall i {:trigger buf[SLOT_LEN * i]} :: 0 <= i < BUF_CNT ==> buf[SLOT_LEN * i] <= MAX_LEN
    }

    function PacketAt(i: nat): Bytes
      reads buf
      requires buf.Length == BUF_CNT * SLOT_LEN && i < BUF_CNT && buf[SLOT_LEN * i] <= MAX_LEN
    {
      buf[SLOT_LEN * i + 1..SLOT_LEN * i + 1 + buf[SLOT_LEN * i]]
    }

    /** The packets, oldest first. */
    ghost function Contents(): (s: seq<Bytes>)
      reads this, buf
      requires Valid()
      ensures |s| == cnt
    {
      seq(cnt, k requires 0 <= k < cnt reads this, buf requires Valid() => PacketAt(Place(offs, cnt, k)))
    }

    constructor ()
      ensures Valid() && Contents() == [] && fresh(buf)
    {
      buf := new byte[BUF_CNT * SLOT_LEN](i => 0);
      cnt, offs := 0, 0;
    }

    /** A packet goes to its slot; no other slot is touched. */
    method StoreAt(i: nat, pkt: Bytes)
      requires Valid() && i < BUF_CNT && |pkt| <= MAX_LEN
      modifies buf
      ensures Valid() && PacketAt(i) == pkt
      ensures forall j :: 0 <= j < BUF_CNT && j != i ==> PacketAt(j) == old(PacketAt(j))
    {
      var at := SLOT_LEN * i;
      buf[at] := |pkt|;
      for k := 0 to |pkt|
        invariant buf[at] == |pkt| && buf[at + 1..at + 1 + k] == pkt[..k]
        invariant forall p :: 0 <= p < buf.Length && (p < at || p >= at + SLOT_LEN) ==> buf[p] == old(buf[p])
      {
        buf[at + 1 + k] := pkt[k];
      }
      forall j | 0 <= j < BUF_CNT && j != i ensures buf[SLOT_LEN * j] == old(buf[SLOT_LEN * j]) && PacketAt(j) == old(PacketAt(j)) {
        assert j < i ==> SLOT_LEN * j + SLOT_LEN <= at;
        assert j > i ==> at + SLOT_LEN <= SLOT_LEN * j;
      }
    }

    /** Packets are taken from the air until there is none, or an empty one; those that
        find no room are lost. */
    method FishForNewLoRaPkt(air: seq<Bytes>) returns (n: nat)
      requires Valid()
      modifies this`cnt, this`offs, buf
      ensures Valid() && n == cnt
      ensures var all := old(Contents()) + Heard(air);
        Contents() == if |all| <= BUF_CNT then all else all[..BUF_CNT]
    {
      hide Place;
      var j := 0;
      assert air[0..] == air;
      while j < |air| && air[j] != []
        invariant 0 <= j <= |air| && Valid()
        invariant Kept(Contents() + Heard(air[j..])) == Kept(old(Contents()) + Heard(air))
      {
        assert air[j..][0] == air[j] && air[j..][1..] == air[j + 1..];
        ghost var rest := Heard(air[j + 1..]);
        ghost var before := Contents();
        if cnt < BUF_CNT {
          Take(Received(air[j]));
          assert Contents() + rest == before + ([Received(air[j])] + rest);
        } else {
          assert Kept(before + ([Received(air[j])] + rest)) == before == Kept(before + rest);
        }
        j := j + 1;
      }
      assert Heard(air[j..]) == [];
      assert Contents() + [] == Contents();
      n := cnt;
    }

    method Take(pkt: Bytes)
      requires Valid() && cnt < BUF_CNT && |pkt| <= MAX_LEN
      modifies this`cnt, this`offs, buf
      ensures Valid() && Contents() == old(Contents()) + [pkt]
    {
      hide Place, PacketAt;
      ghost var before := Contents();
      StoreAt(offs, pkt);
      ghost var o, c := offs, cnt;
      offs := (offs + 1) % BUF_CNT;
      cnt := cnt + 1;
      NewPlace(o, c);
      forall k | 0 <= k < c ensures Contents()[k] == before[k] {
        PlacesKept(o, c, k);
      }
    }

    /** The oldest packet, or nothing. */
    method LoraGetPkt() returns (pkt: Bytes)
      requires Valid()
      modifies this`cnt
      ensures Valid()
      ensures if old(cnt) == 0 then pkt == [] && Contents() == old(Contents())
        else pkt == old(Contents())[0] && Contents() == old(Contents())[1..]
    {
      hide Place;
      if cnt <= 0 {
        return [];
      }
      ghost var before, c := Contents(), cnt;
      var i := Place(offs, cnt, 0);
      pkt := PacketAt(i);
      cnt := cnt - 1;
      forall k | 0 <= k < cnt ensures Contents()[k] == before[k + 1] {
        PlacesMove(offs, c, k);
      }
    }
  }

  function Kept(s: seq<Bytes>): seq<Bytes> {
    if |s| <= BUF_CNT then s else s[..BUF_CNT]
  }

  // ------------------------------------------------------------- enqueuing

  predicate Meant(face: Face, to: Option<Face>) {
    face.sends && (to == None || to == Some(face))
  }

  /** A packet for one face, or for all; with its prefix, if it has one. */
  method IoEnqueue(faces: seq<Face>, pkt: Bytes, dmx: Option<Bytes>, to: Option<Face>)
    requires forall i, j :: 0 <= i < j < |faces| ==> faces[i] != faces[j] && faces[i].queue != faces[j].queue
    requires forall i :: 0 <= i < |faces| ==> faces[i].Valid()
    requires |pkt| + (if dmx.Some? then |dmx.value| else 0) < 256
    modifies faces`queueLen, set f | f in faces :: f.queue
    ensures forall i :: 0 <= i < |faces| ==>
      faces[i].Valid() && Queued(old(faces[i].Contents()), faces[i].Contents(), Stored(pkt, dmx), Meant(faces[i], to))
  {
    EnqueueAll(faces, Stored(pkt, dmx), to);
  }

  method EnqueueAll(faces: seq<Face>, buf: Bytes, to: Option<Face>)
    requires forall i, j :: 0 <= i < j < |faces| ==> faces[i] != faces[j] && faces[i].queue != faces[j].queue
    requires forall i :: 0 <= i < |faces| ==> faces[i].queue.Length == MAX_QUEUE && faces[i].Valid()
    requires 0 < |buf| && buf[0] == |buf| - 1
    modifies faces`queueLen, set f | f in faces :: f.queue
    ensures forall i :: 0 <= i < |faces| ==> faces[i].Valid() && Queued(old(faces[i].Contents()), faces[i].Contents(), buf, Meant(faces[i], to))
  {
    hide Face.Valid, Face.Contents, Meant, Queued;
    for i := 0 to |faces|
      invariant forall k :: 0 <= k < |faces| ==> faces[k].Valid()
      invariant forall k :: 0 <= k < i ==> Queued(old(faces[k].Contents()), faces[k].Contents(), buf, Meant(faces[k], to))
      invariant forall k :: i <= k < |faces| ==> faces[k].Contents() == old(faces[k].Contents())
    {
      EnqueueOn(faces[i], buf, to);
    }
  }

  method EnqueueOn(face: Face, buf: Bytes, to: Option<Face>)
    requires face.queue.Length == MAX_QUEUE && face.Valid() && 0 < |buf| && buf[0] == |buf| - 1
    modifies face`queueLen, face.queue
    ensures face.Valid() && Queued(old(face.Contents()), face.Contents(), buf, Meant(face, to))
  {
    hide Distinct;
    if Meant(face, to) {
      face.Enqueue(buf);
    }
  }

  function Stored(pkt: Bytes, dmx: Option<Bytes>): (buf: Bytes)
    requires |pkt| + (if dmx.Some? then |dmx.value| else 0) < 256
    ensures 0 < |buf| && buf[0] == |buf| - 1
  {
    var wire := if dmx.Some? then dmx.value + pkt else pkt;
    [|wire|] + wire
  }

  /** What becomes of a queue. */
  ghost predicate Queued(before: seq<Bytes>, after: seq<Bytes>, buf: Bytes, meant: bool) {
    after == if meant && |before| < MAX_QUEUE && buf !in before then before + [buf] else before
  }

  lemma StoredIs(pkt: Bytes, dmx: Bytes)
    requires |pkt| + |dmx| < 256
    ensures var sent, bare := Stored(pkt, Some(dmx))[1..], if |pkt| < 256 then Stored(pkt, None)[1..] else pkt;
      |sent| == |dmx| + |pkt| && sent[..|dmx|] == dmx && sent[|dmx|..] == pkt && bare == pkt
  {
    assert Stored(pkt, Some(dmx))[1..] == dmx + pkt;
  }

  method EnqueueForOne(face: Face, pkt: Bytes, dmx: Option<Bytes>)
    requires face.Valid() && face.Contents() == [] && face.sends
    requires |pkt| + (if dmx.Some? then |dmx.value| else 0) < 256
    modifies face`queueLen, face.queue
    ensures face.Valid() && face.Contents() == [Stored(pkt, dmx)]
  {
    hide Stored, Face.Contents, Face.Valid;
    IoEnqueue([face], pkt, dmx, None);
    assert [face][0] == face;
  }

  /** What is enqueued on an idle face leaves it with its prefix in front, or bare if it
      has none. */
  method EnqueueAndSend(face: Face, pkt: Bytes, dmx: Option<Bytes>, now: nat, random: nat) returns (sent: Option<Bytes>)
    requires face.Valid() && face.Contents() == [] && face.sends && now >= face.nextSend
    requires |pkt| + (if dmx.Some? then |dmx.value| else 0) < 256
    modifies face, face.queue
    ensures face.Valid() && face.Contents() == [] && sent.Some?
    ensures dmx == None ==> sent.value == pkt
    ensures dmx.Some? ==> |sent.value| == |dmx.value| + |pkt| && sent.value[..|dmx.value|] == dmx.value && sent.value[|dmx.value|..] == pkt
  {
    hide Stored, Face.Contents, Face.Valid;
    StoredIs(pkt, if dmx.Some? then dmx.value else []);
    EnqueueForOne(face, pkt, dmx);
    LengthOf(face);
    sent := face.Dequeue(now, random);
  }

  /** Packets heard while the buffer is empty are handed on in order, cut to 127 bytes;
      the fifth and all later ones are lost. */
  method HearAndGet(ring: RingBuffer, air: seq<Bytes>) returns (got: seq<Bytes>)
    requires ring.Valid() && ring.Contents() == [] && forall k :: 0 <= k < |air| ==> air[k] != []
    modifies ring, ring.buf
    ensures ring.Valid() && ring.Contents() == [] && |got| == if |air| <= 4 then |air| else 4
    ensures forall k :: 0 <= k < |got| ==> got[k] == if |air[k]| <= 127 then air[k] else air[k][..127]
  {
    hide RingBuffer.Contents, RingBuffer.Valid;
    HeardAll(air);
    var n := ring.FishForNewLoRaPkt(air);
    ghost var all := ring.Contents();
    CountOf(ring);
    got := [];
    while |got| < n
      invariant ring.Valid() && |got| <= n == |all| && got == all[..|got|] && ring.Contents() == all[|got|..]
      decreases n - |got|
    {
      CountOf(ring);
      var pkt := ring.LoraGetPkt();
      got := got + [pkt];
    }
  }

  lemma LengthOf(face: Face)
    requires face.Valid()
    ensures |face.Contents()| == face.queueLen
  {
  }

  lemma CountOf(ring: RingBuffer)
    requires ring.Valid()
    ensures |ring.Contents()| == ring.cnt
  {
  }

  lemma {:induction false} HeardAll(air: seq<Bytes>)
    requires forall k :: 0 <= k < |air| ==> air[k] != []
    ensures |Heard(air)| == |air| && forall k :: 0 <= k < |air| ==> Heard(air)[k] == if |air[k]| <= 127 then air[k] else air[k][..127]
  {
    if air != [] {
      HeardAll(air[1..]);
    }
  }
}
