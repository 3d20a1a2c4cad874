/** How two stations find out which keys they lack: what a claim about a range of
    keys is answered with. */
module Reconciliation {
  import opened Basics
  import opened KeySets

  datatype Msg = Novelty(key: Key) | Range(claim: Claim)

  // ------------------------------------------------------------ wire format

  /** 'n' and a key, or 'c', both ends, the fingerprint and the number of keys. */
  function Wire(m: Msg): Bytes
    requires m.Range? ==> m.claim.sz < 256
  {
    match m
    case Novelty(key) => [110] + key
    case Range(cl) => [99] + cl.lo + cl.hi + cl.xo + [cl.sz]
  }

  function Parsed(buf: Bytes): Option<Msg> {
    if |buf| == 33 && buf[0] == 110 then Some(Novelty(buf[1..33]))
    else if |buf| == 98 && buf[0] == 99 then Some(Range(Claim(buf[1..33], buf[33..65], buf[65..97], buf[97])))
    else None
  }

  lemma WireRoundTrip(m: Msg)
    requires m.Range? ==> m.claim.sz < 256
    ensures Parsed(Wire(m)) == Some(m)
  {
    var w := Wire(m);
    match m
    case Novelty(key) => assert w[1..33] == key;
    case Range(cl) =>
      assert w[1..33] == cl.lo && w[33..65] == cl.hi && w[65..97] == cl.xo;
  }

  // ----------------------------------------------------------------- lookup

  /** The first position of a key, or -1. */
  function IndexOf(keys: seq<Key>, key: Key): (i: int)
    ensures -1 <= i < |keys|
    ensures i >= 0 ==> keys[i] == key
    ensures i < 0 ==> forall k :: 0 <= k < |keys| ==> keys[k] != key
  {
    if keys == [] then -1
    else
      var i := IndexOf(keys[..|keys| - 1], key);
      if i >= 0 then i else if keys[|keys| - 1] == key then |keys| - 1 else -1
  }

  lemma IndexInside(keys: seq<Key>, key: Key)
    ensures -1 <= IndexOf(keys, key) < |keys|
  {
  }

  lemma {:induction false} IndexOfPrefix(keys: seq<Key>, key: Key, n: nat)
    requires n <= |keys| && IndexOf(keys[..n], key) >= 0
    ensures IndexOf(keys, key) == IndexOf(keys[..n], key)
  {
    if n < |keys| {
      assert keys[..|keys| - 1][..n] == keys[..n];
      IndexOfPrefix(keys[..|keys| - 1], key, n);
    } else {
      assert keys[..n] == keys;
    }
  }

  // ------------------------------------------------------------------ adding

  const MAX_KEYS := 100

  /** Append and sort. */
  function Inserted(keys: seq<Key>, key: Key): (r: seq<Key>)
    ensures |r| == |keys| + 1
  {
    if keys == [] then [key]
    else if Less(keys[|keys| - 1], key) then keys + [key]
    else Inserted(keys[..|keys| - 1], key) + [keys[|keys| - 1]]
  }

  function Added(keys: seq<Key>, key: Key): seq<Key> {
    if key == ZERO || key in keys || |keys| >= MAX_KEYS then keys else Inserted(keys, key)
  }

  lemma {:induction false} InsertedSorted(keys: seq<Key>, key: Key)
    requires Sorted(keys) && key !in keys
    ensures Sorted(Inserted(keys, key)) && SetOf(Inserted(keys, key)) == SetOf(keys) + {key}
    ensures forall x :: x in Inserted(keys, key) ==> x in keys || x == key
  {
    if keys == [] {
      SetOfAppend([], key);
      assert [] + [key] == [key];
    } else {
      var n := |keys| - 1;
      var front, last := keys[..n], keys[n];
      if Less(last, key) {
        forall i | 0 <= i < n ensures Less(keys[i], key) {
          LessTransitive(keys[i], last, key);
        }
        SetOfAppend(keys, key);
      } else {
        InsertedSorted(front, key);
        LessTotal(last, key);
        var r := Inserted(front, key);
        forall i | 0 <= i < |r| ensures Less(r[i], last) {
          assert r[i] in front || r[i] == key;
        }
        SetOfAppend(r, last);
        SetOfAppend(front, last);
        assert front + [last] == keys;
      }
    }
  }

  lemma SetOfAppend(keys: seq<Key>, key: Key)
    ensures SetOf(keys + [key]) == SetOf(keys) + {key}
  {
    forall x ensures x in SetOf(keys + [key]) <==> x in SetOf(keys) + {key} {
      if x in SetOf(keys) {
        var i :| 0 <= i < |keys| && keys[i] == x;
        assert (keys + [key])[i] == x;
      }
      assert (keys + [key])[|keys|] == key;
    }
  }

  /** Key lists stay sorted and only grow, by nothing but the key. */
  lemma AddedKeeps(keys: seq<Key>, key: Key)
    requires Sorted(keys)
    ensures Sorted(Added(keys, key)) && SetOf(keys) <= SetOf(Added(keys, key)) <= SetOf(keys) + {key}
    ensures key == ZERO ==> Added(keys, key) == keys
    ensures key != ZERO && |keys| < MAX_KEYS ==> key in SetOf(Added(keys, key))
  {
    if key != ZERO && key !in keys && |keys| < MAX_KEYS {
      InsertedSorted(keys, key);
    }
  }

  // -------------------------------------------------------------- one claim

  datatype Verdict = Settled | Lacking | Differing | Richer

  /** What a station makes of a claim: not its business or the same as its own,
      describing more keys than it holds, as many, or fewer. */
  function Judge(keys: seq<Key>, cl: Claim): (v: Verdict)
    ensures v != Settled ==> 0 <= IndexOf(keys, cl.lo) <= IndexOf(keys, cl.hi)
  {
    var lo, hi := IndexOf(keys, cl.lo), IndexOf(keys, cl.hi);
    if cl.sz == 0 || lo < 0 || hi < 0 || lo > hi || XorOf(keys[lo..hi + 1]) == cl.xo then Settled
    else if hi - lo + 1 < cl.sz then Lacking
    else if hi - lo + 1 == cl.sz then Differing
    else Richer
  }

  function Own(keys: seq<Key>, cl: Claim): Claim
    requires Judge(keys, cl) != Settled
  {
    MakeClaim(keys, IndexOf(keys, cl.lo), IndexOf(keys, cl.hi))
  }

  /** Unused places of the key table hold zeros. */
  function Slot(keys: seq<Key>, i: nat): Key {
    if i < |keys| then keys[i] else ZERO
  }

  /** Help for one who has both `first` and `last`: what lies between them. */
  function HelpFor(keys: seq<Key>, first: nat, last: nat): seq<Msg>
    requires first <= last < |keys|
  {
    var lo, hi := first + 1, last - 1;
    if hi <= lo then [Novelty(Slot(keys, lo))]
    else if hi - lo <= 2 then [Range(MakeClaim(keys, lo, hi))]
    else
      var sz := (hi + 1 - lo) / 2;
      [Range(MakeClaim(keys, lo, lo + sz - 1)), Range(MakeClaim(keys, lo + sz, hi))]
  }

  /** Message `m` speaks of the key at position `k`. */
  predicate Describes(keys: seq<Key>, m: Msg, k: nat)
    requires k < |keys|
  {
    match m
    case Novelty(key) => key == keys[k]
    case Range(cl) => !Less(keys[k], cl.lo) && !Less(cl.hi, keys[k])
  }

  lemma DescribedRange(keys: seq<Key>, lo: nat, hi: nat, k: nat)
    requires Sorted(keys) && lo <= hi < |keys| && k < |keys|
    ensures Describes(keys, Range(MakeClaim(keys, lo, hi)), k) <==> lo <= k <= hi
  {
    if Less(keys[k], keys[lo]) {
      SortedOrder(keys, k, lo);
    }
    if Less(keys[hi], keys[k]) {
      SortedOrder(keys, hi, k);
    }
    LessIrreflexive(keys[k]);
  }

  /** The help messages speak of each inner key exactly once and of no other key. */
  lemma HelpCovers(keys: seq<Key>, first: nat, last: nat, k: nat)
    requires Sorted(keys) && first + 2 <= last < |keys| && k < |keys|
    ensures var h := HelpFor(keys, first, last);
      && (first < k < last ==> exists t {:trigger h[t]} :: 0 <= t < |h| && Describes(keys, h[t], k) && forall u :: 0 <= u < |h| && Describes(keys, h[u], k) ==> u == t)
      && (!(first < k < last) ==> forall t :: 0 <= t < |h| ==> !Describes(keys, h[t], k))
  {
    var lo, hi := first + 1, last - 1;
    var h := HelpFor(keys, first, last);
    if hi <= lo {
      if keys[k] == keys[lo] {
        SortedDistinct(keys, k, lo);
      }
      assert Describes(keys, h[0], k) <==> k == lo;
    } else if hi - lo <= 2 {
      DescribedRange(keys, lo, hi, k);
      assert Describes(keys, h[0], k) <==> lo <= k <= hi;
    } else {
      var sz := (hi + 1 - lo) / 2;
      DescribedRange(keys, lo, lo + sz - 1, k);
      DescribedRange(keys, lo + sz, hi, k);
      assert Describes(keys, h[0], k) <==> lo <= k <= lo + sz - 1;
      assert Describes(keys, h[1], k) <==> lo + sz <= k <= hi;
    }
  }

  /** What is sent is true, and each claim has a strictly smaller span. */
  lemma HelpIsHonest(keys: seq<Key>, first: nat, last: nat, t: nat)
    requires Sorted(keys) && first <= last < |keys| && t < |HelpFor(keys, first, last)|
    ensures var m := HelpFor(keys, first, last)[t];
      && (m.Novelty? ==> m.key in keys || m.key == ZERO)
      && (m.Range? ==> 1 <= m.claim.sz < last - first + 1 && exists i, j :: HonestBy(m.claim, keys, i, j))
  {
    var lo, hi := first + 1, last - 1;
    if hi > lo {
      if hi - lo <= 2 {
        assert HonestBy(MakeClaim(keys, lo, hi), keys, lo, hi);
      } else {
        var sz := (hi + 1 - lo) / 2;
        assert HonestBy(MakeClaim(keys, lo, lo + sz - 1), keys, lo, lo + sz - 1);
        assert HonestBy(MakeClaim(keys, lo + sz, hi), keys, lo + sz, hi);
      }
    }
  }

  /** Progress. The claim of another station is judged to describe no more keys than
      are held here: then that station lacks an inner key, and some help message
      either is that key, or has an end that the other station lacks, or is a
      claim over a smaller range, with both ends known there, of which it lacks a
      key. */
  lemma HelpMakesProgress(mine: seq<Key>, theirs: seq<Key>, i: nat, j: nat, cl: Claim)
    requires Sorted(mine) && HonestBy(cl, theirs, i, j) && Judge(mine, cl) in {Differing, Richer}
    ensures var lo, hi := IndexOf(mine, cl.lo), IndexOf(mine, cl.hi);
      lo + 2 <= hi && exists t, k {:trigger Teaches(mine, lo, hi, theirs, t, k)} :: Teaches(mine, lo, hi, theirs, t, k)
  {
    hide Judge, XorOf, SetOf, MakeClaim;
    var lo, hi := IndexOf(mine, cl.lo), IndexOf(mine, cl.hi);
    JudgedByCount(mine, theirs, i, j, cl);
    ClaimantLacks(mine, lo, hi, theirs, i, j);
    var k: nat :| lo < k < hi && mine[k] !in SetOf(theirs);
    SomeMessage(mine, lo, hi, k, theirs);
  }

  lemma JudgedByCount(mine: seq<Key>, theirs: seq<Key>, i: nat, j: nat, cl: Claim)
    requires HonestBy(cl, theirs, i, j) && Judge(mine, cl) in {Differing, Richer}
    ensures var lo, hi := IndexOf(mine, cl.lo), IndexOf(mine, cl.hi);
      && 0 <= lo <= hi && hi - lo >= j - i && XorOf(mine[lo..hi + 1]) != XorOf(theirs[i..j + 1])
      && mine[lo] == theirs[i] && mine[hi] == theirs[j]
  {
  }

  lemma SomeMessage(mine: seq<Key>, lo: nat, hi: nat, k: nat, theirs: seq<Key>)
    requires Sorted(mine) && lo < k < hi < |mine| && mine[k] !in SetOf(theirs)
    ensures exists t {:trigger Teaches(mine, lo, hi, theirs, t, k)} :: Teaches(mine, lo, hi, theirs, t, k)
  {
    hide HelpFor, SetOf;
    HelpCovers(mine, lo, hi, k);
    var t: nat :| t < |HelpFor(mine, lo, hi)| && Describes(mine, HelpFor(mine, lo, hi)[t], k);
    HelpIsHonest(mine, lo, hi, t);
    assert Teaches(mine, lo, hi, theirs, t, k);
  }

  /** Help message `t` is about key `k`, which the other station lacks, and brings it
      closer. */
  ghost predicate Teaches(mine: seq<Key>, lo: nat, hi: nat, theirs: seq<Key>, t: nat, k: nat) {
    && lo < k < hi < |mine| && mine[k] !in SetOf(theirs) && t < |HelpFor(mine, lo, hi)|
    && match HelpFor(mine, lo, hi)[t]
       case Novelty(key) => key == mine[k]
       case Range(cl) =>
         || cl.lo !in SetOf(theirs) || cl.hi !in SetOf(theirs)
         || (cl.sz < hi - lo + 1 && !Less(mine[k], cl.lo) && !Less(cl.hi, mine[k]))
  }

  // -------------------------------------------------------------- one round

  /** What is sent for one claim. */
  function Sent(keys: seq<Key>, cl: Claim, ask: int, help: int): seq<Msg> {
    var v := Judge(keys, cl);
    (if v in {Lacking, Differing} && ask > 0 then [Range(Own(keys, cl))] else [])
    + (if v in {Differing, Richer} && help > 0 then HelpFor(keys, IndexOf(keys, cl.lo), IndexOf(keys, cl.hi)) else [])
  }

  predicate Stays(v: Verdict, help: int) {
    v == Lacking || (v in {Differing, Richer} && help <= 0)
  }

  function AskLeft(v: Verdict, ask: int): int {
    if v in {Lacking, Differing} then ask - 1 else ask
  }

  function HelpLeft(v: Verdict, help: int): int {
    if v in {Differing, Richer} then help - 1 else help
  }

  /** Going through the pending claims: what is sent, and which claims are kept. */
  function Round(keys: seq<Key>, pend: seq<Claim>, ask: int, help: int): (seq<Msg>, seq<Claim>) {
    if pend == [] then ([], [])
    else
      var v := Judge(keys, pend[0]);
      var (out, keep) := Round(keys, pend[1..], AskLeft(v, ask), HelpLeft(v, help));
      (Sent(keys, pend[0], ask, help) + out, if Stays(v, help) then [pend[0]] + keep else keep)
  }

  // --------------------------------------------------------------- honesty

  /** Some list of keys from `all` is described by the claim. */
  ghost predicate Honest(all: set<Key>, cl: Claim) {
    exists ks, i, j {:trigger HonestBy(cl, ks, i, j)} :: HonestBy(cl, ks, i, j) && SetOf(ks) <= all
  }

  ghost predicate HonestMsg(all: set<Key>, m: Msg) {
    match m
    case Novelty(key) => key in all || key == ZERO
    case Range(cl) => Honest(all, cl)
  }

  ghost predicate AllHonest(all: set<Key>, msgs: seq<Msg>) {
    forall t :: 0 <= t < |msgs| ==> HonestMsg(all, msgs[t])
  }

  ghost predicate HonestClaims(all: set<Key>, pend: seq<Claim>) {
    forall t :: 0 <= t < |pend| ==> Honest(all, pend[t])
  }

  lemma EndsAreHeld(all: set<Key>, cl: Claim)
    requires Honest(all, cl)
    ensures cl.lo in all && cl.hi in all && (cl.sz == 3 ==> MiddleKey(cl) in all && Less(cl.lo, MiddleKey(cl)) && Less(MiddleKey(cl), cl.hi))
  {
    var ks, i, j :| HonestBy(cl, ks, i, j) && SetOf(ks) <= all;
    assert ks[i] in SetOf(ks) && ks[j] in SetOf(ks);
    if cl.sz == 3 {
      MiddleIsHeld(cl, ks, i, j);
      assert ks[i + 1] in SetOf(ks);
    }
  }

  lemma OwnIsHonest(all: set<Key>, keys: seq<Key>, i: nat, j: nat)
    requires Sorted(keys) && SetOf(keys) <= all && i <= j < |keys|
    ensures Honest(all, MakeClaim(keys, i, j))
  {
    assert HonestBy(MakeClaim(keys, i, j), keys, i, j);
  }

  /** A round sends honest messages only and invents no claim to keep. */
  lemma {:induction false} RoundIsHonest(all: set<Key>, keys: seq<Key>, pend: seq<Claim>, ask: int, help: int)
    requires Sorted(keys) && SetOf(keys) <= all && HonestClaims(all, pend)
    ensures AllHonest(all, Round(keys, pend, ask, help).0) && HonestClaims(all, Round(keys, pend, ask, help).1)
    decreases |pend|
  {
    if pend != [] {
      var v := Judge(keys, pend[0]);
      RoundIsHonest(all, keys, pend[1..], AskLeft(v, ask), HelpLeft(v, help));
      SentIsHonest(all, keys, pend[0], ask, help);
    }
  }

  lemma SentIsHonest(all: set<Key>, keys: seq<Key>, cl: Claim, ask: int, help: int)
    requires Sorted(keys) && SetOf(keys) <= all
    ensures AllHonest(all, Sent(keys, cl, ask, help))
  {
    if Judge(keys, cl) != Settled {
      var lo, hi := IndexOf(keys, cl.lo), IndexOf(keys, cl.hi);
      OwnIsHonest(all, keys, lo, hi);
      forall t | 0 <= t < |HelpFor(keys, lo, hi)| ensures HonestMsg(all, HelpFor(keys, lo, hi)[t]) {
        HelpIsHonest(keys, lo, hi, t);
        var m := HelpFor(keys, lo, hi)[t];
        if m.Range? {
          var i, j :| HonestBy(m.claim, keys, i, j);
        } else if m.key in keys {
          assert m.key in SetOf(keys);
        }
      }
    }
  }

  /** The first claim, in the order of the round, that calls for help gets it. */
  lemma {:induction false} RoundHelps(keys: seq<Key>, pend: seq<Claim>, k: nat, ask: int, help: int)
    requires k < |pend| && help > 0 && Judge(keys, pend[k]) in {Differing, Richer}
    requires forall i :: 0 <= i < k ==> Judge(keys, pend[i]) in {Settled, Lacking}
    ensures var h := HelpFor(keys, IndexOf(keys, pend[k].lo), IndexOf(keys, pend[k].hi));
      exists p {:trigger Occurs(Round(keys, pend, ask, help).0, p, h)} :: 0 <= p && Occurs(Round(keys, pend, ask, help).0, p, h)
    decreases k
  {
    hide Round, HelpFor, Own, Judge;
    RoundBegins(keys, pend, ask, help);
    var rest, front := pend[1..], Sent(keys, pend[0], ask, help);
    var h := HelpFor(keys, IndexOf(keys, pend[k].lo), IndexOf(keys, pend[k].hi));
    if k == 0 {
      var p := |front| - |h|;
      var out := Round(keys, pend, ask, help).0;
      assert out[p..p + |h|] == h;
      assert Occurs(out, p, h);
      assert h == HelpFor(keys, IndexOf(keys, pend[k].lo), IndexOf(keys, pend[k].hi));
      assert exists p {:trigger Occurs(Round(keys, pend, ask, help).0, p, h)} :: 0 <= p && Occurs(Round(keys, pend, ask, help).0, p, h);
    } else {
      assert rest[k - 1] == pend[k];
      var v := Judge(keys, pend[0]);
      RoundHelps(keys, rest, k - 1, AskLeft(v, ask), HelpLeft(v, help));
      var out := Round(keys, rest, AskLeft(v, ask), HelpLeft(v, help)).0;
      var p :| 0 <= p && Occurs(out, p, h);
      OccursLater(front, out, p, h);
    }
  }

  lemma RoundBegins(keys: seq<Key>, pend: seq<Claim>, ask: int, help: int)
    requires pend != []
    ensures var v := Judge(keys, pend[0]);
      var r := Round(keys, pend[1..], AskLeft(v, ask), HelpLeft(v, help));
      Round(keys, pend, ask, help) == (Sent(keys, pend[0], ask, help) + r.0, if Stays(v, help) then [pend[0]] + r.1 else r.1)
  {
    hide Sent, Judge;
  }

  predicate Occurs(out: seq<Msg>, p: nat, h: seq<Msg>) {
    p + |h| <= |out| && out[p..p + |h|] == h
  }

  lemma OccursLater(front: seq<Msg>, out: seq<Msg>, p: nat, h: seq<Msg>)
    requires Occurs(out, p, h)
    ensures Occurs(front + out, |front| + p, h)
  {
    assert (front + out)[|front| + p..|front| + p + |h|] == out[p..p + |h|];
  }

  /** What has been sent and kept, and what the rest will bring, are the whole round. */
  ghost predicate Underway(keys: seq<Key>, all: seq<Claim>, ask0: int, help0: int, out: seq<Msg>, kept: seq<Claim>, rest: seq<Claim>, ask: int, help: int) {
    && Round(keys, all, ask0, help0).0 == out + Round(keys, rest, ask, help).0
    && Round(keys, all, ask0, help0).1 == kept + Round(keys, rest, ask, help).1
  }

  lemma RoundStarts(keys: seq<Key>, all: seq<Claim>, ask: int, help: int)
    ensures Underway(keys, all, ask, help, [], [], all, ask, help)
  {
    hide Round;
    assert forall r: seq<Msg> :: [] + r == r;
    assert forall r: seq<Claim> :: [] + r == r;
  }

  lemma RoundGoesOn(keys: seq<Key>, all: seq<Claim>, ask0: int, help0: int, out: seq<Msg>, kept: seq<Claim>, rest: seq<Claim>, ask: int, help: int)
    requires Underway(keys, all, ask0, help0, out, kept, rest, ask, help) && rest != []
    ensures var v := Judge(keys, rest[0]);
      Underway(keys, all, ask0, help0, out + Sent(keys, rest[0], ask, help), if Stays(v, help) then kept + [rest[0]] else kept, rest[1..], AskLeft(v, ask), HelpLeft(v, help))
  {
    hide Round, Judge, Sent, Stays, AskLeft, HelpLeft;
    RoundBegins(keys, rest, ask, help);
    var v := Judge(keys, rest[0]);
    var r := Round(keys, rest[1..], AskLeft(v, ask), HelpLeft(v, help));
    assert out + (Sent(keys, rest[0], ask, help) + r.0) == out + Sent(keys, rest[0], ask, help) + r.0;
    assert kept + ([rest[0]] + r.1) == kept + [rest[0]] + r.1;
  }

  lemma RoundEnds(keys: seq<Key>, all: seq<Claim>, ask0: int, help0: int, out: seq<Msg>, kept: seq<Claim>, ask: int, help: int)
    requires Underway(keys, all, ask0, help0, out, kept, [], ask, help)
    ensures Round(keys, all, ask0, help0).0 == out && Round(keys, all, ask0, help0).1 == kept
  {
    assert Round(keys, [], ask, help) == ([], []);
  }

  ghost predicate SmallestFirst(sorted: seq<Claim>, pend: seq<Claim>) {
    multiset(sorted) == multiset(pend) && forall i, j :: 0 <= i < j < |sorted| ==> sorted[i].sz <= sorted[j].sz
  }

  lemma SmallestFirstMembers(sorted: seq<Claim>, pend: seq<Claim>)
    requires multiset(sorted) == multiset(pend) && forall i, j :: 0 <= i < j < |sorted| ==> sorted[i].sz <= sorted[j].sz
    ensures SmallestFirst(sorted, pend)
    ensures forall all {:trigger HonestClaims(all, pend)} :: HonestClaims(all, pend) ==> HonestClaims(all, sorted)
  {
    forall all, t | HonestClaims(all, pend) && 0 <= t < |sorted| ensures Honest(all, sorted[t]) {
      assert sorted[t] in multiset(pend);
    }
  }

  // ------------------------------------------------------- what a round serves

  function One(b: bool): nat {
    if b then 1 else 0
  }

  /** How many of the claims call for help, how many make the station ask, and how many
      describe more keys than are held. */
  function Callers(keys: seq<Key>, pend: seq<Claim>): nat {
    if pend == [] then 0 else One(Judge(keys, pend[0]) in {Differing, Richer}) + Callers(keys, pend[1..])
  }

  function Askers(keys: seq<Key>, pend: seq<Claim>): nat {
    if pend == [] then 0 else One(Judge(keys, pend[0]) in {Lacking, Differing}) + Askers(keys, pend[1..])
  }

  function Lackers(keys: seq<Key>, pend: seq<Claim>): nat {
    if pend == [] then 0 else One(Judge(keys, pend[0]) == Lacking) + Lackers(keys, pend[1..])
  }

  lemma {:induction false} RoundSplit(keys: seq<Key>, a: seq<Claim>, b: seq<Claim>, ask: int, help: int)
    ensures var r, s, t := Round(keys, a, ask, help), Round(keys, b, ask - Askers(keys, a), help - Callers(keys, a)), Round(keys, a + b, ask, help);
      t.0 == r.0 + s.0 && t.1 == r.1 + s.1
    decreases |a|
  {
    hide Round, Judge, Sent, Stays, Askers, Callers, AskLeft, HelpLeft;
    if a == [] {
      assert a + b == b;
      NoRound(keys, ask, help);
    } else {
      var v := Judge(keys, a[0]);
      assert (a + b)[0] == a[0] && (a + b)[1..] == a[1..] + b;
      RoundBegins(keys, a + b, ask, help);
      RoundBegins(keys, a, ask, help);
      RoundSplit(keys, a[1..], b, AskLeft(v, ask), HelpLeft(v, help));
      CreditLeft(keys, a, ask, help);
    }
  }

  lemma CreditLeft(keys: seq<Key>, a: seq<Claim>, ask: int, help: int)
    requires a != []
    ensures var v := Judge(keys, a[0]);
      ask - Askers(keys, a) == AskLeft(v, ask) - Askers(keys, a[1..]) && help - Callers(keys, a) == HelpLeft(v, help) - Callers(keys, a[1..])
  {
    hide Judge;
  }

  lemma NoRound(keys: seq<Key>, ask: int, help: int)
    ensures Round(keys, [], ask, help) == ([], []) && Askers(keys, []) == Callers(keys, []) == 0
  {
  }

  /** Every claim has its turn: it is asked about and helped as long as the claims before
      it have left credit for that, and kept if it describes more than is held here, or
      calls for help that it does not get. */
  lemma RoundAt(keys: seq<Key>, pend: seq<Claim>, k: nat, ask: int, help: int)
    requires k < |pend|
    ensures var cl, a, b := pend[k], pend[..k], pend[k + 1..];
      var v, asks, helps := Judge(keys, cl), ask - Askers(keys, a), help - Callers(keys, a);
      var r, s, t := Round(keys, a, ask, help), Round(keys, b, ask - Askers(keys, a + [cl]), help - Callers(keys, a + [cl])), Round(keys, pend, ask, help);
      && t.0 == r.0 + ((if v in {Lacking, Differing} && asks > 0 then [Range(Own(keys, cl))] else [])
                       + (if v in {Differing, Richer} && helps > 0 then HelpFor(keys, IndexOf(keys, cl.lo), IndexOf(keys, cl.hi)) else [])) + s.0
      && t.1 == r.1 + (if v == Lacking || (v in {Differing, Richer} && helps <= 0) then [cl] else []) + s.1
  {
    hide Round, Judge, Own, HelpFor, Askers, Callers;
    var cl, a, b := pend[k], pend[..k], pend[k + 1..];
    assert pend == (a + [cl]) + b;
    RoundSplit(keys, a + [cl], b, ask, help);
    RoundSplit(keys, a, [cl], ask, help);
    RoundOfOne(keys, cl, ask - Askers(keys, a), help - Callers(keys, a));
  }

  lemma RoundOfOne(keys: seq<Key>, cl: Claim, ask: int, help: int)
    ensures Round(keys, [cl], ask, help) == (Sent(keys, cl, ask, help), if Stays(Judge(keys, cl), help) then [cl] else [])
  {
    hide Judge, Sent, Stays;
    RoundBegins(keys, [cl], ask, help);
    assert [cl][1..] == [];
    NoRound(keys, AskLeft(Judge(keys, cl), ask), HelpLeft(Judge(keys, cl), help));
    assert Sent(keys, cl, ask, help) + [] == Sent(keys, cl, ask, help) && [cl] + [] == [cl];
  }

  /** As many claims are kept as describe more than is held here, and call for help beyond
      what a round gives. */
  lemma {:induction false} RoundKeeps(keys: seq<Key>, pend: seq<Claim>, ask: int, help: int)
    ensures |Round(keys, pend, ask, help).1| ==
      Lackers(keys, pend) + if help <= 0 then Callers(keys, pend) else if Callers(keys, pend) > help then Callers(keys, pend) - help else 0
    decreases |pend|
  {
    hide Judge, Sent;
    if pend != [] {
      var v := Judge(keys, pend[0]);
      RoundBegins(keys, pend, ask, help);
      RoundKeeps(keys, pend[1..], AskLeft(v, ask), HelpLeft(v, help));
    }
  }
}
