/** Two stations whose key sets differ: their claims, and the answers to them, end in a
    key that one of them lacked. */
module Dialogue {
  import opened Basics
  import opened KeySets
  import opened Reconciliation
  import G = GOset
  import T = GOsetStation

  /** The message carries a key that is not among `keys`. */
  ghost predicate Brings(keys: seq<Key>, m: Msg) {
    match m
    case Novelty(key) => key != ZERO && key !in SetOf(keys)
    case Range(cl) => cl.lo != ZERO && cl.hi != ZERO && (cl.lo !in SetOf(keys) || cl.hi !in SetOf(keys))
  }

  /** Zero is no key. */
  ghost predicate NoZero(keys: seq<Key>) {
    ZERO !in SetOf(keys)
  }

  /** Messages go to and fro, the first from `x` to `y`. Each but the first is among the
      answers of its sender to the one before, as long as that sender still may ask and
      help in its round. The last brings its receiver a key, the others do not. */
  ghost predicate Talk(x: seq<Key>, y: seq<Key>, ms: seq<Msg>)
    decreases |ms|
  {
    ms != [] &&
    if |ms| == 1 then Brings(y, ms[0])
    else !Brings(y, ms[0]) && ms[0].Range? && ms[1] in Sent(y, ms[0].claim, 1, 1) && Talk(y, x, ms[1..])
  }

  /** Ranges between the same two keys have the same fingerprint only if they are the
      same. */
  ghost predicate NoAccident(x: seq<Key>, y: seq<Key>) {
    forall lo, hi, i, j {:trigger MakeClaim(x, lo, hi), MakeClaim(y, i, j)} ::
      0 <= lo <= hi < |x| && 0 <= i <= j < |y| && x[lo] == y[i] && x[hi] == y[j] && MakeClaim(x, lo, hi).xo == MakeClaim(y, i, j).xo ==>
        x[lo..hi + 1] == y[i..j + 1]
  }

  lemma NoAccidentEither(x: seq<Key>, y: seq<Key>)
    requires NoAccident(x, y)
    ensures NoAccident(y, x)
  {
    hide MakeClaim;
    forall lo, hi, i, j {:trigger MakeClaim(y, lo, hi), MakeClaim(x, i, j)} |
      0 <= lo <= hi < |y| && 0 <= i <= j < |x| && y[lo] == x[i] && y[hi] == x[j] && MakeClaim(y, lo, hi).xo == MakeClaim(x, i, j).xo
      ensures y[lo..hi + 1] == x[i..j + 1]
    {
      assert MakeClaim(x, i, j).xo == MakeClaim(y, lo, hi).xo;
    }
  }

  lemma IndexAt(keys: seq<Key>, k: nat)
    requires Sorted(keys) && k < |keys|
    ensures IndexOf(keys, keys[k]) == k
  {
    var i := IndexOf(keys, keys[k]);
    SortedDistinct(keys, i, k);
  }

  lemma IndexHeld(keys: seq<Key>, key: Key)
    requires key in SetOf(keys)
    ensures 0 <= IndexOf(keys, key) < |keys| && keys[IndexOf(keys, key)] == key
  {
    var i := IndexOf(keys, key);
    var k :| 0 <= k < |keys| && keys[k] == key;
  }

  /** `y` claims a range whose ends `x` holds, and which is not the same for `x`. */
  ghost predicate Disputed(x: seq<Key>, y: seq<Key>, lo: nat, hi: nat, i: nat, j: nat) {
    && lo <= hi < |x| && i <= j < |y| && x[lo] == y[i] && x[hi] == y[j] && x[lo..hi + 1] != y[i..j + 1]
  }

  lemma JudgedDisputed(x: seq<Key>, y: seq<Key>, lo: nat, hi: nat, i: nat, j: nat)
    requires Sorted(x) && Sorted(y) && NoAccident(x, y) && Disputed(x, y, lo, hi, i, j)
    ensures var cl := MakeClaim(y, i, j);
      && IndexOf(x, cl.lo) == lo && IndexOf(x, cl.hi) == hi
      && Judge(x, cl) == if hi - lo < j - i then Lacking else if hi - lo == j - i then Differing else Richer
    ensures Judge(x, MakeClaim(y, i, j)) != Settled && Own(x, MakeClaim(y, i, j)) == MakeClaim(x, lo, hi)
  {
    hide IndexOf, XorOf;
    IndexAt(x, lo);
    IndexAt(x, hi);
    assert MakeClaim(x, lo, hi).xo != MakeClaim(y, i, j).xo;
  }

  /** The sender of a help message is right about it, and it lies strictly inside. */
  lemma HelpInside(x: seq<Key>, lo: nat, hi: nat, t: nat) returns (p: nat, q: nat)
    requires lo <= hi < |x| && t < |HelpFor(x, lo, hi)| && HelpFor(x, lo, hi)[t].Range?
    ensures lo < p <= q < hi && HelpFor(x, lo, hi)[t] == Range(MakeClaim(x, p, q))
  {
    p, q := lo + 1, hi - 1;
    if q - p > 2 {
      var sz := (q + 1 - p) / 2;
      if t == 0 {
        q := p + sz - 1;
      } else {
        p := p + sz;
      }
    }
  }

  /** Positions of keys that lie strictly inside a range. */
  lemma StrictlyInside(x: seq<Key>, y: seq<Key>, lo: nat, hi: nat, i: nat, j: nat, p: nat, q: nat)
    requires Sorted(x) && Sorted(y) && lo < p <= q < hi < |x| && i <= j < |y| && x[lo] == y[i] && x[hi] == y[j]
    requires x[p] in SetOf(y) && x[q] in SetOf(y)
    ensures i < IndexOf(y, x[p]) <= IndexOf(y, x[q]) < j && y[IndexOf(y, x[p])] == x[p] && y[IndexOf(y, x[q])] == x[q]
  {
    hide IndexOf, Less;
    IndexHeld(y, x[p]);
    IndexHeld(y, x[q]);
    var a, b := IndexOf(y, x[p]), IndexOf(y, x[q]);
    SortedOrder(y, i, a);
    SortedOrder(y, b, j);
    if p < q {
      SortedOrder(y, a, b);
    }
  }

  lemma TalkOn(x: seq<Key>, y: seq<Key>, m: Msg, ms: seq<Msg>)
    requires m.Range? && !Brings(y, m) && ms != [] && ms[0] in Sent(y, m.claim, 1, 1) && Talk(y, x, ms)
    ensures Talk(x, y, [m] + ms)
  {
    hide Brings, Sent;
    assert ([m] + ms)[1..] == ms;
  }

  lemma HelpIsSent(x: seq<Key>, cl: Claim, t: nat)
    requires Judge(x, cl) in {Differing, Richer} && t < |HelpFor(x, IndexOf(x, cl.lo), IndexOf(x, cl.hi))|
    ensures HelpFor(x, IndexOf(x, cl.lo), IndexOf(x, cl.hi))[t] in Sent(x, cl, 1, 1)
  {
    hide Judge, HelpFor, Own, IndexOf;
    var h := HelpFor(x, IndexOf(x, cl.lo), IndexOf(x, cl.hi));
    var s := Sent(x, cl, 1, 1);
    assert s[|s| - |h|..] == h;
    assert s[|s| - |h| + t] == h[t];
  }

  /** Whoever holds at least as many keys of a disputed range helps, and that leads on. */
  lemma Helps(x: seq<Key>, y: seq<Key>, lo: nat, hi: nat, i: nat, j: nat) returns (ms: seq<Msg>)
    requires Sorted(x) && Sorted(y) && NoZero(x) && NoZero(y) && NoAccident(x, y) && Disputed(x, y, lo, hi, i, j) && hi - lo >= j - i
    ensures ms != [] && ms[0] in Sent(x, MakeClaim(y, i, j), 1, 1) && Talk(x, y, ms) && |ms| <= hi - lo + j - i + 1
    decreases hi - lo + j - i, 0
  {
    hide Judge, HelpFor, XorOf, Sent, IndexOf, MakeClaim, SetOf, Less, Brings;
    var cl := MakeClaim(y, i, j);
    JudgedDisputed(x, y, lo, hi, i, j);
    assert HonestBy(cl, y, i, j);
    HelpMakesProgress(x, y, i, j, cl);
    var t: nat, k: nat :| Teaches(x, lo, hi, y, t, k);
    var m := HelpFor(x, lo, hi)[t];
    HelpIsSent(x, cl, t);
    ms := [m];
    if !Brings(y, m) {
      var p, q, a, b := Narrowed(x, y, lo, hi, i, j, t, k);
      NoAccidentEither(x, y);
      var rest := Reconciled(y, x, a, b, p, q);
      TalkOn(x, y, m, rest);
      ms := [m] + rest;
    }
  }

  /** A help message that brings no key is a claim about a smaller disputed range. */
  lemma Narrowed(x: seq<Key>, y: seq<Key>, lo: nat, hi: nat, i: nat, j: nat, t: nat, k: nat) returns (p: nat, q: nat, a: nat, b: nat)
    requires Sorted(x) && Sorted(y) && NoZero(x) && Disputed(x, y, lo, hi, i, j) && Teaches(x, lo, hi, y, t, k) && !Brings(y, HelpFor(x, lo, hi)[t])
    ensures lo < p <= q < hi && i < a <= b < j && Disputed(y, x, a, b, p, q)
    ensures HelpFor(x, lo, hi)[t] == Range(MakeClaim(x, p, q))
  {
    hide HelpFor, XorOf, IndexOf, SetOf, Less;
    InSet(x, k);
    p, q := HelpInside(x, lo, hi, t);
    InSet(x, p);
    InSet(x, q);
    StrictlyInside(x, y, lo, hi, i, j, p, q);
    a, b := IndexOf(y, x[p]), IndexOf(y, x[q]);
    DescribedRange(x, p, q, k);
    RangesDiffer(x, y, p, q, k, a, b);
  }

  lemma InSet(x: seq<Key>, k: nat)
    requires k < |x|
    ensures x[k] in SetOf(x)
  {
  }

  lemma RangesDiffer(x: seq<Key>, y: seq<Key>, p: nat, q: nat, k: nat, a: nat, b: nat)
    requires p <= k <= q < |x| && a <= b < |y| && x[k] !in SetOf(y)
    ensures y[a..b + 1] != x[p..q + 1]
  {
    var s, t := x[p..q + 1], y[a..b + 1];
    assert s[k - p] == x[k];
    assert k - p < |t| ==> t[k - p] == y[a + (k - p)];
  }

  /** A disputed claim is answered, by asking for help or by helping, and what follows
      ends in a key that its receiver lacked, after at most as many messages as the
      range has room for. */
  lemma Reconciled(x: seq<Key>, y: seq<Key>, lo: nat, hi: nat, i: nat, j: nat) returns (ms: seq<Msg>)
    requires Sorted(x) && Sorted(y) && NoZero(x) && NoZero(y) && NoAccident(x, y) && Disputed(x, y, lo, hi, i, j)
    ensures ms != [] && ms[0] in Sent(x, MakeClaim(y, i, j), 1, 1) && Talk(x, y, ms) && |ms| <= hi - lo + j - i + 2
    decreases hi - lo + j - i, 1
  {
    hide Judge, HelpFor, XorOf, Sent, IndexOf, MakeClaim, SetOf, Less;
    if hi - lo >= j - i {
      ms := Helps(x, y, lo, hi, i, j);
    } else {
      NoAccidentEither(x, y);
      var rest := Helps(y, x, i, j, lo, hi);
      Asks(x, y, lo, hi, i, j);
      TalkOn(x, y, Range(MakeClaim(x, lo, hi)), rest);
      ms := [Range(MakeClaim(x, lo, hi))] + rest;
    }
  }

  lemma Asks(x: seq<Key>, y: seq<Key>, lo: nat, hi: nat, i: nat, j: nat)
    requires Sorted(x) && Sorted(y) && NoAccident(x, y) && Disputed(x, y, lo, hi, i, j) && hi - lo < j - i
    ensures Range(MakeClaim(x, lo, hi)) in Sent(x, MakeClaim(y, i, j), 1, 1) && !Brings(y, Range(MakeClaim(x, lo, hi)))
  {
    hide Judge, HelpFor, XorOf, IndexOf, Less;
    JudgedDisputed(x, y, lo, hi, i, j);
    assert y[i] in SetOf(y) && y[j] in SetOf(y);
    assert Sent(x, MakeClaim(y, i, j), 1, 1)[0] == Range(MakeClaim(x, lo, hi));
  }

  function Whole(keys: seq<Key>): Claim
    requires keys != []
  {
    MakeClaim(keys, 0, |keys| - 1)
  }

  /** Two stations with different key sets, each of which makes the claim over all its
      keys: a claim brings its receiver a key, or the first station's answer to the
      claim of the second starts an exchange that ends in a key for one of them. */
  lemma StationsReconcile(x: seq<Key>, y: seq<Key>)
    requires Sorted(x) && Sorted(y) && NoZero(x) && NoZero(y) && NoAccident(x, y) && x != [] && y != [] && SetOf(x) != SetOf(y)
    ensures || Brings(x, Range(Whole(y))) || Brings(y, Range(Whole(x)))
            || exists ms {:trigger Talk(x, y, ms)} :: Talk(x, y, ms) && ms[0] in Sent(x, Whole(y), 1, 1) && |ms| <= |x| + |y|
  {
    hide Judge, HelpFor, XorOf, Sent, IndexOf, Less, SetOf;
    if !Brings(x, Range(Whole(y))) && !Brings(y, Range(Whole(x))) {
      SameEnds(x, y);
      assert x[..|x|] == x && y[..|y|] == y;
      var ms := Reconciled(x, y, 0, |x| - 1, 0, |y| - 1);
    }
  }

  /** Each holds the ends of the other: these are the same. */
  lemma SameEnds(x: seq<Key>, y: seq<Key>)
    requires Sorted(x) && Sorted(y) && NoZero(x) && NoZero(y) && x != [] && y != [] && !Brings(x, Range(Whole(y))) && !Brings(y, Range(Whole(x)))
    ensures x[0] == y[0] && x[|x| - 1] == y[|y| - 1]
  {
    var a :| 0 <= a < |x| && x[a] == y[0];
    var b :| 0 <= b < |y| && y[b] == x[0];
    var c :| 0 <= c < |x| && x[c] == y[|y| - 1];
    var d :| 0 <= d < |y| && y[d] == x[|x| - 1];
    LessTransitiveOrEqual(x[0], y[0]);
    LessTransitiveOrEqual(x[|x| - 1], y[|y| - 1]);
  }

  // -------------------------------------------------------------- reception

  /** The last message of a talk brings its receiver a key. */
  lemma {:induction false} TalkEnds(x: seq<Key>, y: seq<Key>, ms: seq<Msg>)
    requires Talk(x, y, ms)
    ensures Brings(if |ms| % 2 == 1 then y else x, ms[|ms| - 1])
    decreases |ms|
  {
    hide Brings, Sent;
    if |ms| > 1 {
      TalkEnds(y, x, ms[1..]);
      assert ms[1..][|ms| - 2] == ms[|ms| - 1];
    }
  }

  /** A node that hears what brings it a key holds more keys than before. */
  method NodeLearns(n: G.GOset, prefix: Bytes, m: Msg, ghost all: set<Key>)
    requires n.Within(all) && HonestMsg(all, m) && ZERO !in all && Brings(n.keys, m) && |n.keys| <= 98
    requires |prefix| == 7 && (m.Range? ==> m.claim.sz < 256)
    modifies n
    ensures n.Within(all) && SetOf(old(n.keys)) < SetOf(n.keys)
  {
    hide SetOf, Sorted, HonestClaims, Parsed, Wire, G.GOset.KeysAfter, G.GOset.PendingAfter, G.Learned, Brings;
    ghost var before := n.keys;
    WireRoundTrip(m);
    WireBegins(m);
    assert (prefix + Wire(m))[7..] == Wire(m);
    NodeGains(all, before, m);
    var _ := n.IncomingGosetMsg(prefix + Wire(m), all);
  }

  lemma WireBegins(m: Msg)
    requires m.Range? ==> m.claim.sz < 256
    ensures |Wire(m)| > 0
  {
  }

  lemma NodeGains(all: set<Key>, before: seq<Key>, m: Msg)
    requires Sorted(before) && HonestMsg(all, m) && ZERO !in all && Brings(before, m)
    ensures forall after {:trigger G.Learned(before, after, m)} :: G.Learned(before, after, m) ==> SetOf(before) < SetOf(after)
  {
    hide Sorted, XorOf;
    forall after | G.Learned(before, after, m) ensures SetOf(before) < SetOf(after) {
      if m.Range? && m.claim.sz == 3 && G.Neighbours(before, m.claim.lo, m.claim.hi) {
        var ks, i: nat, j: nat :| HonestBy(m.claim, ks, i, j) && SetOf(ks) <= all;
        MiddleIsNew(before, m.claim, ks, i, j);
        InSet(ks, i + 1);
      }
    }
  }

  /** The end that is not held is the lower one, so what lies between comes before all
      keys that are held. */
  lemma MiddleIsNew(before: seq<Key>, cl: Claim, ks: seq<Key>, i: nat, j: nat)
    requires Sorted(before) && HonestBy(cl, ks, i, j) && cl.sz == 3 && G.Neighbours(before, cl.lo, cl.hi)
    requires cl.lo !in SetOf(before) || cl.hi !in SetOf(before)
    ensures i + 1 < |ks| && ks[i + 1] !in SetOf(before)
  {
    hide XorOf, Less;
    MiddleIsHeld(cl, ks, i, j);
    FoundIfHeld(before, cl.lo);
    FoundIfHeld(before, cl.hi);
    assert before[0] == cl.hi;
    if ks[i + 1] in SetOf(before) {
      var p :| 0 <= p < |before| && before[p] == ks[i + 1];
      SortedOrder(before, p, 0);
    }
  }

  lemma FoundIfHeld(keys: seq<Key>, key: Key)
    ensures IndexOf(keys, key) >= 0 <==> key in SetOf(keys)
  {
  }

  /** So does a station. */
  method StationLearns(s: T.GOsetClass, prefix: Bytes, m: Msg, ghost all: set<Key>)
    requires s.Within(all) && HonestMsg(all, m) && Brings(s.Keys(), m) && s.len <= 98
    requires |prefix| == 7 && (m.Range? ==> m.claim.sz < 256)
    modifies s, s.table, s.claims
    ensures s.Within(all) && SetOf(old(s.Keys())) < SetOf(s.Keys())
  {
    hide SetOf, Sorted, HonestClaims, Parsed, Wire, T.GOsetClass.KeysAfter, T.GOsetClass.ClaimsAfter, T.Learned, T.Remembered, T.PassedOn, Brings;
    ghost var before := s.Keys();
    WireRoundTrip(m);
    assert (prefix + Wire(m))[7..] == Wire(m);
    StationGains(before, m);
    var _ := s.Rx(prefix + Wire(m), all);
  }

  lemma StationGains(before: seq<Key>, m: Msg)
    requires Brings(before, m)
    ensures forall after {:trigger T.Learned(before, after, m)} :: T.Learned(before, after, m) ==> SetOf(before) < SetOf(after)
  {
  }
}
