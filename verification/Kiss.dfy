/** Byte-stuffed frames over a serial line. */
module Kiss {
  import opened Basics

  const FEND: byte := 0xc0
  const FESC: byte := 0xdb
  const TFEND: byte := 0xdc
  const TFESC: byte := 0xdd

  const ROOM := 256

  // -------------------------------------------------------------- writing

  function Stuffed(pkt: Bytes): Bytes {
    if pkt == [] then []
    else Stuffed(pkt[..|pkt| - 1]) + StuffedByte(pkt[|pkt| - 1])
  }

  function StuffedByte(b: byte): Bytes {
    if b == FESC then [FESC, TFESC] else if b == FEND then [FESC, TFEND] else [b]
  }

  function Frame(pkt: Bytes): Bytes {
    [FEND] + Stuffed(pkt) + [FEND]
  }

  /** A serial line: what was written and has not been read. */
  class Stream {
    var line: Bytes

    method Write(b: byte)
      modifies this
      ensures line == old(line) + [b]
    {
      line := line + [b];
    }

    method Read() returns (b: byte)
      requires line != []
      modifies this
      ensures b == old(line)[0] && line == old(line)[1..]
    {
      b := line[0];
      line := line[1..];
    }
  }

  method KissWrite(s: Stream, buf: Bytes)
    modifies s
    ensures s.line == old(s.line) + Frame(buf)
  {
    s.Write(FEND);
    assert buf[..0] == [];
    for i := 0 to |buf|
      invariant s.line == old(s.line) + [FEND] + Stuffed(buf[..i])
    {
      ghost var before := s.line;
      assert buf[..i + 1][..i] == buf[..i];
      if buf[i] == FESC {
        s.Write(FESC);
        s.Write(TFESC);
        assert s.line == before + [FESC, TFESC];
      } else if buf[i] == FEND {
        s.Write(FESC);
        s.Write(TFEND);
        assert s.line == before + [FESC, TFEND];
      } else {
        s.Write(buf[i]);
      }
    }
    assert buf[..|buf|] == buf;
    s.Write(FEND);
  }

  // -------------------------------------------------------------- reading

  /** What a reader has gathered of the current frame. */
  datatype Gathered = Gathered(esc: bool, content: Bytes)

  const NOTHING := Gathered(false, [])

  function Added(content: Bytes, b: byte): Bytes {
    if |content| < ROOM then content + [b] else content
  }

  /** One byte that is not the end of a frame. */
  function Fed(g: Gathered, c: byte): Gathered {
    if c == FESC then Gathered(true, g.content)
    else if g.esc then
      Gathered(false, if c == TFESC then Added(g.content, FESC) else if c == TFEND then Added(g.content, FEND) else g.content)
    else Gathered(false, Added(g.content, c))
  }

  function FedAll(g: Gathered, s: Bytes): Gathered {
    if s == [] then g else Fed(FedAll(g, s[..|s| - 1]), s[|s| - 1])
  }

  /** Where the current frame ends, or the end of the input. */
  function EndOfFrame(s: Bytes): (n: nat)
    ensures n <= |s|
    ensures forall k :: 0 <= k < n ==> s[k] != FEND
    ensures n < |s| ==> s[n] == FEND
  {
    if s == [] || s[0] == FEND then 0 else 1 + EndOfFrame(s[1..])
  }

  class KissBuf {
    var esc: bool
    const buf: array<byte>
    var len: nat

    ghost predicate Valid()
      reads this
    {
      buf.Length == ROOM && len <= ROOM
    }

    ghost function State(): Gathered
      reads this, buf
      requires Valid()
    {
      Gathered(esc, buf[..len])
    }

    constructor ()
      ensures Valid() && State() == NOTHING && fresh(buf)
    {
      esc, len := false, 0;
      buf := new byte[ROOM](i => 0);
    }

    method Store(b: byte)
      requires Valid()
      modifies this`len, buf
      ensures Valid() && buf[..len] == Added(old(buf[..len]), b)
    {
      if len < buf.Length {
        ghost var before := buf[..len];
        buf[len] := b;
        len := len + 1;
        assert buf[..len] == before + [b];
      }
    }

    /** Reads to the end of the current frame, if it is there, and gives its length; the
        packet is then in the first bytes of the buffer. Zero otherwise, and for empty
        frames. */
    method KissRead(s: Stream) returns (sz: nat)
      requires Valid()
      modifies this, buf, s
      ensures Valid()
      ensures var n := EndOfFrame(old(s.line));
        var g := FedAll(old(State()), old(s.line)[..n]);
        if n < |old(s.line)| then
          sz == |g.content| <= buf.Length && buf[..sz] == g.content && State() == NOTHING && s.line == old(s.line)[n + 1..]
        else sz == 0 && State() == g && s.line == []
    {
      ghost var k, n, line, g := 0, EndOfFrame(s.line), s.line, State();
      assert line[..0] == [];
      while s.line != []
        invariant Valid() && 0 <= k <= n <= |line| && s.line == line[k..]
        invariant State() == FedAll(g, line[..k])
        decreases |s.line|
      {
        assert line[k..][0] == line[k] && line[k..][1..] == line[k + 1..];
        var c := s.Read();
        if c == FEND {
          sz := len;
          esc := false;
          len := 0;
          assert k == n;
          return;
        }
        assert line[..k + 1][..k] == line[..k];
        if c == FESC {
          esc := true;
        } else if esc {
          if c == TFESC || c == TFEND {
            Store(if c == TFESC then FESC else FEND);
          }
          esc := false;
        } else {
          Store(c);
        }
        k := k + 1;
      }
      assert line[..n] == line[..k];
      sz := 0;
    }
  }

  // ------------------------------------------------------- read what was written

  function Cut(pkt: Bytes): Bytes {
    if |pkt| <= ROOM then pkt else pkt[..ROOM]
  }

  lemma FedAppend(g: Gathered, a: Bytes, b: byte)
    ensures FedAll(g, a + [b]) == Fed(FedAll(g, a), b)
  {
    assert (a + [b])[..|a|] == a;
  }

  lemma OneMore(s: Bytes, before: Bytes, b: byte)
    requires FedAll(NOTHING, s) == Gathered(false, Cut(before))
    ensures FedAll(NOTHING, s + StuffedByte(b)) == Gathered(false, Cut(before + [b]))
  {
    hide FedAll;
    assert |before| < ROOM ==> Cut(before + [b]) == before + [b];
    assert |before| >= ROOM ==> Cut(before + [b]) == Cut(before);
    if b == FESC || b == FEND {
      FedAppend(NOTHING, s, FESC);
      FedAppend(NOTHING, s + [FESC], StuffedByte(b)[1]);
      assert s + StuffedByte(b) == s + [FESC] + [StuffedByte(b)[1]];
    } else {
      FedAppend(NOTHING, s, b);
    }
  }

  /** A frame has no end inside, and brings its packet. */
  lemma {:induction false} StuffedFed(pkt: Bytes)
    ensures FedAll(NOTHING, Stuffed(pkt)) == Gathered(false, Cut(pkt))
    ensures FEND !in Stuffed(pkt)
  {
    if pkt != [] {
      var n := |pkt| - 1;
      var s, b := Stuffed(pkt[..n]), pkt[n];
      StuffedFed(pkt[..n]);
      OneMore(s, pkt[..n], b);
      assert pkt[..n] + [b] == pkt;
    }
  }

  lemma {:induction false} EndAfter(s: Bytes, rest: Bytes)
    requires FEND !in s
    ensures EndOfFrame(s + [FEND] + rest) == |s|
  {
    if s != [] {
      assert (s + [FEND] + rest)[1..] == s[1..] + [FEND] + rest;
      EndAfter(s[1..], rest);
    }
  }

  /** How many ends of frames there are. */
  function Ends(s: Bytes): nat {
    if s == [] then 0 else (if s[0] == FEND then 1 else 0) + Ends(s[1..])
  }

  lemma {:induction false} EndsBefore(s: Bytes)
    ensures EndOfFrame(s) <= |s| && (Ends(s) == 0 <==> EndOfFrame(s) == |s|)
    ensures EndOfFrame(s) < |s| ==> Ends(s[EndOfFrame(s) + 1..]) == Ends(s) - 1
  {
    if s != [] && s[0] != FEND {
      EndsBefore(s[1..]);
      var n := EndOfFrame(s[1..]);
      assert n < |s| - 1 ==> s[1..][n + 1..] == s[n + 2..];
    }
  }

  lemma Behind(s: Bytes, u: Bytes, n: nat)
    requires n <= |s| && u != []
    ensures (s + u)[n + 1..] == if n < |s| then s[n + 1..] + u else u[1..]
  {
  }

  /** The next read stops at the first end of a frame that is on the line, if there is
      one, and otherwise at the first byte of the new frame. */
  lemma FrameAhead(rest: Bytes, frame: Bytes)
    requires frame != [] && frame[0] == FEND
    ensures var line, n := rest + frame, EndOfFrame(rest);
      && EndOfFrame(line) == n <= |rest| && (n == |rest| <==> Ends(rest) == 0)
      && line[n + 1..] == (if n < |rest| then rest[n + 1..] + frame else frame[1..])
      && (n < |rest| ==> Ends(rest[n + 1..]) == Ends(rest) - 1)
  {
    hide Ends, EndOfFrame;
    EndsBefore(rest);
    EndInFront(rest, frame);
    Behind(rest, frame, EndOfFrame(rest));
  }

  lemma FrameBegins(pkt: Bytes)
    ensures Frame(pkt) != [] && Frame(pkt)[0] == FEND && Frame(pkt)[1..] == Stuffed(pkt) + [FEND]
  {
    hide Stuffed;
    assert Frame(pkt) == [FEND] + (Stuffed(pkt) + [FEND]);
  }

  lemma {:induction false} EndInFront(s: Bytes, rest: Bytes)
    requires rest != [] && rest[0] == FEND
    ensures EndOfFrame(s + rest) == EndOfFrame(s)
  {
    if s == [] {
      assert s + rest == rest;
    } else {
      assert (s + rest)[1..] == s[1..] + rest;
      EndInFront(s[1..], rest);
    }
  }

  lemma LastFrame(pkt: Bytes)
    requires |pkt| <= ROOM
    ensures var line, n := Stuffed(pkt) + [FEND], |Stuffed(pkt)|;
      EndOfFrame(line) == n && line[n + 1..] == [] && FedAll(NOTHING, line[..n]) == Gathered(false, pkt)
  {
    hide FedAll;
    var t := Stuffed(pkt);
    StuffedFed(pkt);
    assert t + [FEND] == t + [FEND] + [];
    EndAfter(t, []);
    assert (t + [FEND])[..|t|] == t;
  }

  /** The frame written is the frame read, from any state of the reader and whatever
      was on the line: each end of a frame there takes one read, and so does the first
      byte of the new frame; the read after these brings the packet. */
  method WriteThenRead(k: KissBuf, s: Stream, pkt: Bytes) returns (sz: nat)
    requires k.Valid() && 1 <= |pkt| <= ROOM
    modifies k, k.buf, s
    ensures k.Valid() && sz == |pkt| && sz <= k.buf.Length && k.buf[..sz] == pkt
    ensures k.State() == NOTHING && s.line == []
  {
    hide FedAll, Stuffed, EndOfFrame, Frame, Ends;
    var turns := Ends(s.line) + 1;
    ghost var rest := s.line;
    KissWrite(s, pkt);
    while turns > 0
      invariant k.Valid() && 0 <= turns
      invariant turns > 0 ==> Ends(rest) == turns - 1 && s.line == rest + Frame(pkt)
      invariant turns == 0 ==> k.State() == NOTHING && s.line == Stuffed(pkt) + [FEND]
    {
      FrameBegins(pkt);
      FrameAhead(rest, Frame(pkt));
      ghost var n := EndOfFrame(rest);
      var _ := k.KissRead(s);
      if n < |rest| {
        rest := rest[n + 1..];
      }
      turns := turns - 1;
    }
    LastFrame(pkt);
    sz := k.KissRead(s);
  }
}
