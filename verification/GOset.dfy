/** The grow-only set of feed keys: the Python node's and the ESP32 station's form. */
module GOset {
  import opened Basics
  import opened KeySets
  import opened Reconciliation

  /** The set as the Python node keeps it. */
  class GOset {
    var keys: seq<Key>
    var state: Key
    var pending: seq<Claim>
    var largestClaimSpan: nat

    /** All that is known here are keys from `all`, and the claims that wait are
        true of such keys. */
    ghost predicate Within(all: set<Key>)
      reads this
    {
      Sorted(keys) && SetOf(keys) <= all && HonestClaims(all, pending)
    }

    constructor (known: set<Key>, ghost all: set<Key>)
      requires known <= all
      ensures Within(all) && SetOf(keys) == known && state == XorOf(keys)
    {
      keys, pending, largestClaimSpan := [], [], 0;
      new;
      var rest := known;
      while rest != {}
        invariant rest <= known && Sorted(keys) && SetOf(keys) == known - rest && pending == []
        invariant forall x :: x in keys <==> x in known - rest
        decreases rest
      {
        var key :| key in rest;
        InsertedSorted(keys, key);
        InsertedHas(keys, key);
        keys := Inserted(keys, key);
        rest := rest - {key};
      }
      if keys == [] {
        state := ZERO;
      } else {
        state := XorRange(0, |keys| - 1);
        assert keys[0..|keys|] == keys;
      }
    }

    method XorRange(lo: nat, hi: nat) returns (xor: Key)
      requires lo <= hi < |keys|
      ensures xor == XorOf(keys[lo..hi + 1])
    {
      xor := keys[lo];
      XorOfOne(keys[lo]);
      assert keys[lo..lo + 1] == [keys[lo]];
      for k := lo + 1 to hi + 1
        invariant xor == XorOf(keys[lo..k])
      {
        assert keys[lo..k + 1][..k - lo] == keys[lo..k];
        xor := Xor(xor, keys[k]);
      }
    }

    method MkClaim(lo: nat, hi: nat) returns (cl: Claim)
      requires lo <= hi < |keys|
      ensures cl == MakeClaim(keys, lo, hi)
    {
      var xo := XorRange(lo, hi);
      cl := Claim(keys[lo], keys[hi], xo, hi - lo + 1);
    }

    /** What a message brings: the key of a novelty, both ends of a claim, or the key that
        its sender holds between them. */
    lemma KeysLearned(all: set<Key>, m: Msg)
      requires Within(all) && HonestMsg(all, m) && |keys| <= 98
      ensures Learned(keys, KeysAfter(m), m)
    {
      hide SetOf, Sorted, Inserted;
      match m
      case Novelty(key) => AddedKeeps(keys, key);
      case Range(cl) =>
        AddedKeeps(keys, MiddleKey(cl));
        AddedKeeps(keys, cl.lo);
        AddedKeeps(Added(keys, cl.lo), cl.hi);
        forall ks, i, j {:trigger HonestBy(cl, ks, i, j)} | HonestBy(cl, ks, i, j) && cl.sz == 3 ensures MiddleKey(cl) == ks[i + 1] {
          MiddleIsHeld(cl, ks, i, j);
        }
    }

    /** True when the feed of the key is to be activated. */
    method AddKey(key: Key, ghost all: set<Key>) returns (activate: bool)
      requires Within(all) && (key in all || key == ZERO)
      modifies this`keys
      ensures Within(all) && keys == Added(old(keys), key) && SetOf(old(keys)) <= SetOf(keys)
      ensures activate <==> keys != old(keys)
      ensures keys == old(keys) || |keys| <= MAX_KEYS
    {
      AddedKeeps(keys, key);
      if key == ZERO || key in keys {
        return false;
      }
      if |keys| >= MAX_KEYS {
        return false;
      }
      keys := Inserted(keys, key);
      activate := true;
    }

    /** A claim waits unless one with the same size and fingerprint does already. */
    function WithClaim(cl: Claim): seq<Claim>
      reads this
    {
      if exists k :: 0 <= k < |pending| && pending[k].sz == cl.sz && pending[k].xo == cl.xo then pending else pending + [cl]
    }

    method AddPendingClaim(cl: Claim, ghost all: set<Key>)
      requires Within(all) && Honest(all, cl)
      modifies this`pending
      ensures Within(all) && pending == old(WithClaim(cl))
    {
      for k := 0 to |pending|
        invariant forall i :: 0 <= i < k ==> !(pending[i].sz == cl.sz && pending[i].xo == cl.xo)
      {
        if pending[k].sz == cl.sz && pending[k].xo == cl.xo {
          return;
        }
      }
      pending := pending + [cl];
    }

    /** The keys after a message. A claim over three keys whose ends are neighbours
        here names the key between them. */
    function KeysAfter(m: Msg): seq<Key>
      reads this
    {
      match m
      case Novelty(key) => Added(keys, key)
      case Range(cl) =>
        if IndexOf(keys, cl.hi) - IndexOf(keys, cl.lo) == 1 && cl.sz == 3 then Added(keys, MiddleKey(cl))
        else Added(Added(keys, cl.lo), cl.hi)
    }

    function SpanAfter(m: Msg): nat
      reads this
    {
      if m.Range? && m.claim.sz > largestClaimSpan then m.claim.sz else largestClaimSpan
    }

    /** The largest claim that has been heard of. */
    lemma SpanGrows(m: Msg)
      ensures SpanAfter(m) >= largestClaimSpan && (m.Range? ==> SpanAfter(m) >= m.claim.sz)
      ensures SpanAfter(m) == largestClaimSpan || (m.Range? && SpanAfter(m) == m.claim.sz)
    {
    }

    /** The claims that wait after a message. */
    function PendingAfter(m: Msg): seq<Claim>
      reads this
    {
      match m
      case Novelty(key) => pending
      case Range(cl) => if IndexOf(keys, cl.hi) - IndexOf(keys, cl.lo) == 1 && cl.sz == 3 then pending else WithClaim(cl)
    }

    /** A message of an honest node brings in nothing that nobody had, and takes
        nothing away. The keys whose feeds are to be activated are returned. */
    method IncomingGosetMsg(pkt: Bytes, ghost all: set<Key>) returns (activated: seq<Key>)
      requires Within(all) && (|pkt| > 7 && Parsed(pkt[7..]).Some? ==> HonestMsg(all, Parsed(pkt[7..]).value))
      modifies this`keys, this`pending, this`largestClaimSpan
      ensures Within(all) && SetOf(old(keys)) <= SetOf(keys)
      ensures keys == if |pkt| > 7 && Parsed(pkt[7..]).Some? then old(KeysAfter(Parsed(pkt[7..]).value)) else old(keys)
      ensures pending == if |pkt| > 7 && Parsed(pkt[7..]).Some? then old(PendingAfter(Parsed(pkt[7..]).value)) else old(pending)
      ensures largestClaimSpan == if |pkt| > 7 && Parsed(pkt[7..]).Some? then old(SpanAfter(Parsed(pkt[7..]).value)) else old(largestClaimSpan)
      ensures keys == old(keys) || |keys| <= MAX_KEYS
      ensures |activated| == |keys| - |old(keys)| && forall x :: x in SetOf(keys) <==> x in SetOf(old(keys)) || x in activated
      ensures |pkt| > 7 && Parsed(pkt[7..]).Some? && |old(keys)| <= 98 ==> Learned(old(keys), keys, Parsed(pkt[7..]).value)
      ensures |pkt| > 7 && Parsed(pkt[7..]).Some? ==> Remembered(old(keys), pending, Parsed(pkt[7..]).value)
    {
      hide SetOf, Sorted, Honest, HonestClaims, HonestMsg, Added, MiddleKey, Parsed, Learned, Remembered, KeysAfter, PendingAfter, SpanAfter, WithClaim;
      if |pkt| > 7 && Parsed(pkt[7..]).Some? {
        var m := Parsed(pkt[7..]).value;
        if |keys| <= 98 {
          KeysLearned(all, m);
        }
        MessageRemembered(m);
      }
      activated := TakeMsg(pkt, all);
    }

    lemma MessageRemembered(m: Msg)
      ensures Remembered(keys, PendingAfter(m), m)
    {
      ClaimRemembered(keys, pending, PendingAfter(m), m);
    }

    /** The handling of a message, step by step. */
    method TakeMsg(pkt: Bytes, ghost all: set<Key>) returns (activated: seq<Key>)
      requires Within(all) && (|pkt| > 7 && Parsed(pkt[7..]).Some? ==> HonestMsg(all, Parsed(pkt[7..]).value))
      modifies this`keys, this`pending, this`largestClaimSpan
      ensures Within(all) && SetOf(old(keys)) <= SetOf(keys)
      ensures keys == if |pkt| > 7 && Parsed(pkt[7..]).Some? then old(KeysAfter(Parsed(pkt[7..]).value)) else old(keys)
      ensures pending == if |pkt| > 7 && Parsed(pkt[7..]).Some? then old(PendingAfter(Parsed(pkt[7..]).value)) else old(pending)
      ensures largestClaimSpan == if |pkt| > 7 && Parsed(pkt[7..]).Some? then old(SpanAfter(Parsed(pkt[7..]).value)) else old(largestClaimSpan)
      ensures keys == old(keys) || |keys| <= MAX_KEYS
      ensures |activated| == |keys| - |old(keys)| && forall x :: x in SetOf(keys) <==> x in SetOf(old(keys)) || x in activated
    {
      hide SetOf, Sorted, Honest, HonestClaims, Added, MiddleKey, Parsed;
      activated := [];
      if |pkt| <= 7 {
        return;
      }
      var parsed := Parsed(pkt[7..]);
      if parsed == None {
        return;
      }
      match parsed.value
      case Novelty(key) =>
        activated := Activate(key, all);
      case Range(cl) =>
        EndsAreHeld(all, cl);
        var i1 := KeyToNdx(cl.lo);
        var i2 := KeyToNdx(cl.hi);
        if cl.sz > largestClaimSpan {
          largestClaimSpan := cl.sz;
        }
        if i2 - i1 == 1 && cl.sz == 3 {
          activated := Activate(MiddleKey(cl), all);
        } else {
          activated := Activate(cl.lo, all);
          var more := Activate(cl.hi, all);
          activated := activated + more;
          AddPendingClaim(cl, all);
        }
    }

    method Activate(key: Key, ghost all: set<Key>) returns (activated: seq<Key>)
      requires Within(all) && (key in all || key == ZERO)
      modifies this`keys
      ensures Within(all) && keys == Added(old(keys), key) && SetOf(old(keys)) <= SetOf(keys)
      ensures keys == old(keys) || |keys| <= MAX_KEYS
      ensures |activated| == |keys| - |old(keys)| && forall x :: x in SetOf(keys) <==> x in SetOf(old(keys)) || x in activated
    {
      var activate := AddKey(key, all);
      activated := if activate then [key] else [];
      if activate {
        InsertedSorted(old(keys), key);
      }
    }

    method KeyToNdx(key: Key) returns (i: int)
      ensures i == IndexOf(keys, key)
    {
      i := FirstIndex(keys, key);
    }

    /** What one pending claim is answered with. None is the exception that ends the
        round where a single key would be news. */
    method AnswerOne(c: Claim, ask: nat, help: nat, ghost ask': int, ghost help': int)
      returns (out: Option<seq<Msg>>, stays: bool, maxAsk: nat, maxHelp: nat)
      requires Sorted(keys) && ask == AtLeastZero(ask') && help == AtLeastZero(help')
      ensures var v, sent := Judge(keys, c), Sent(keys, c, ask', help');
        && out == (if HasNews(sent) then None else Some(sent))
        && (out.Some? ==> stays == Stays(v, help') && maxAsk == AtLeastZero(AskLeft(v, ask')) && maxHelp == AtLeastZero(HelpLeft(v, help')))
    {
      hide XorOf, Sorted, IndexOf, Less, Sent, HasNews, HelpFor;
      SentFor(keys, c, ask', help');
      NoNews(c);
      var lst: seq<Msg>;
      lst, maxAsk, maxHelp := [], ask, help;
      if c.sz == 0 {
        return Some([]), false, maxAsk, maxHelp;
      }
      var lo := KeyToNdx(c.lo);
      var hi := KeyToNdx(c.hi);
      IndexInside(keys, c.lo);
      IndexInside(keys, c.hi);
      if lo == -1 || hi == -1 || lo > hi {
        return Some([]), false, maxAsk, maxHelp;
      }
      var partial := MkClaim(lo, hi);
      if partial.xo == c.xo {
        return Some([]), false, maxAsk, maxHelp;
      }
      NoNews(partial);
      if partial.sz <= c.sz {
        if maxAsk > 0 {
          maxAsk := maxAsk - 1;
          lst := [Range(partial)];
        }
        assert lst + [] == lst;
        if partial.sz < c.sz {
          return Some(lst), true, maxAsk, maxHelp;
        }
      }
      if maxHelp > 0 {
        maxHelp := maxHelp - 1;
        var more := Help(lo, hi);
        NewsInTwo(lst, HelpFor(keys, lo, hi));
        out := if more == None then None else Some(lst + more.value);
        return out, false, maxAsk, maxHelp;
      }
      assert lst + [] == lst;
      return Some(lst), true, maxAsk, maxHelp;
    }

    method Help(first: nat, last: nat) returns (out: Option<seq<Msg>>)
      requires first <= last < |keys|
      ensures out == if HasNews(HelpFor(keys, first, last)) then None else Some(HelpFor(keys, first, last))
    {
      hide XorOf;
      var lo, hi := first + 1, last - 1;
      if hi <= lo {
        assert HelpFor(keys, first, last)[0].Novelty?;
        return None;
      }
      if hi - lo <= 2 {
        var cl := MkClaim(lo, hi);
        return Some([Range(cl)]);
      }
      var sz := (hi + 1 - lo) / 2;
      var front := MkClaim(lo, lo + sz - 1);
      var back := MkClaim(lo + sz, hi);
      return Some([Range(front), Range(back)]);
    }

    /** Going through the pending claims. */
    method AnswerClaims(pend: seq<Claim>) returns (out: Option<seq<Msg>>, retain: seq<Claim>)
      requires Sorted(keys)
      ensures var r := Round(keys, pend, ASK_PER_ROUND, HELP_PER_ROUND);
        out == (if HasNews(r.0) then None else Some(r.0)) && (out.Some? ==> retain == r.1)
    {
      hide Round, Judge, Sent, Sorted, Stays, AskLeft, HelpLeft;
      var lst, maxAsk, maxHelp := [], ASK_PER_ROUND, HELP_PER_ROUND;
      ghost var ask, help: int := ASK_PER_ROUND, HELP_PER_ROUND;
      retain := [];
      assert pend[0..] == pend;
      RoundStarts(keys, pend, ask, help);
      for i := 0 to |pend|
        invariant maxAsk == AtLeastZero(ask) && maxHelp == AtLeastZero(help) && !HasNews(lst)
        invariant Underway(keys, pend, ASK_PER_ROUND, HELP_PER_ROUND, lst, retain, pend[i..], ask, help)
      {
        var c := pend[i];
        ghost var v, sent := Judge(keys, c), Sent(keys, c, ask, help);
        RoundGoesOn(keys, pend, ASK_PER_ROUND, HELP_PER_ROUND, lst, retain, pend[i..], ask, help);
        assert pend[i..][0] == c && pend[i..][1..] == pend[i + 1..];
        var more, stays;
        more, stays, maxAsk, maxHelp := AnswerOne(c, maxAsk, maxHelp, ask, help);
        NewsInside(lst, sent, Round(keys, pend[i + 1..], AskLeft(v, ask), HelpLeft(v, help)).0);
        if more == None {
          return None, [];
        }
        lst := lst + more.value;
        if stays {
          retain := retain + [c];
        }
        ask, help := AskLeft(v, ask), HelpLeft(v, help);
      }
      assert pend[|pend|..] == [];
      RoundEnds(keys, pend, ASK_PER_ROUND, HELP_PER_ROUND, lst, retain, ask, help);
      out := Some(lst);
    }

    /** What every node sends now and then: the claim over all keys, and the answers to
        the claims that wait. None is an exception: the number of keys does not fit a
        byte, or the answers contain news, or too many claims are left; all that has
        changed then are the order of the claims, and the state. The caller is told
        whether other prefixes are to stand for requests. */
    method Advertise(ghost all: set<Key>) returns (out: Option<seq<Msg>>, changed: bool)
      requires Within(all)
      modifies this`state, this`pending
      ensures Within(all) && (out.Some? ==> AllHonest(all, out.value))
      ensures changed <==> state != old(state)
      ensures !(1 <= |keys| < 256) ==> out == (if keys == [] then Some([]) else None) && state == old(state) && pending == old(pending)
      ensures 1 <= |keys| < 256 ==>
        && state == XorOf(keys)
        && var claims := BySize(old(pending));
        && var r := Round(keys, claims, 1, 3);
        && if HasNews(r.0) || |r.1| >= 15 then out == None && pending == claims
           else out == Some([Range(MakeClaim(keys, 0, |keys| - 1))] + r.0) && pending == r.1
    {
      hide Round, Sorted, SetOf, XorOf, HonestClaims, HasNews, BySize, Honest, AllHonest;
      changed := false;
      if keys == [] {
        EachHonest(all, []);
        return Some([]), false;
      }
      if |keys| >= 256 {
        return None, false;
      }
      var cl := MkClaim(0, |keys| - 1);
      assert keys[0..|keys|] == keys;
      OwnIsHonest(all, keys, 0, |keys| - 1);
      if cl.xo != state {
        state := cl.xo;
        changed := true;
      }
      BySizeIsSmallestFirst(all, pending);
      pending := BySize(pending);
      RoundIsHonest(all, keys, pending, ASK_PER_ROUND, HELP_PER_ROUND);
      var answers, retain := AnswerClaims(pending);
      if answers == None || |retain| >= MAX_PENDING - 5 {
        return None, changed;
      }
      pending := retain;
      HonestFirst(all, Range(cl), answers.value);
      out := Some([Range(cl)] + answers.value);
    }
  }

  /** After the message its receiver holds what it names, as far as that is no zero key. Of
      a claim over three keys between neighbours it is the key that any sender of such a
      claim has in the middle. */
  ghost predicate Learned(before: seq<Key>, after: seq<Key>, m: Msg) {
    && SetOf(before) <= SetOf(after)
    && match m
       case Novelty(key) => key != ZERO ==> key in SetOf(after)
       case Range(cl) =>
         if cl.sz == 3 && Neighbours(before, cl.lo, cl.hi)
         then forall ks, i, j {:trigger HonestBy(cl, ks, i, j)} :: HonestBy(cl, ks, i, j) && ks[i + 1] != ZERO ==> ks[i + 1] in SetOf(after)
         else (cl.lo != ZERO ==> cl.lo in SetOf(after)) && (cl.hi != ZERO ==> cl.hi in SetOf(after))
  }

  /** A claim waits to be answered, unless it has told its receiver the missing key, or one
      of the same size and fingerprint waits already. */
  ghost predicate Remembered(before: seq<Key>, pending: seq<Claim>, m: Msg) {
    m.Range? && !(m.claim.sz == 3 && Neighbours(before, m.claim.lo, m.claim.hi)) ==>
      exists k :: 0 <= k < |pending| && pending[k].sz == m.claim.sz && pending[k].xo == m.claim.xo
  }

  lemma ClaimRemembered(before: seq<Key>, pending: seq<Claim>, after: seq<Claim>, m: Msg)
    requires m.Range? ==>
      after == if m.claim.sz == 3 && Neighbours(before, m.claim.lo, m.claim.hi) then pending
               else if exists k :: 0 <= k < |pending| && pending[k].sz == m.claim.sz && pending[k].xo == m.claim.xo then pending else pending + [m.claim]
    ensures Remembered(before, after, m)
  {
    if m.Range? && after == pending + [m.claim] {
      assert after[|pending|] == m.claim;
    }
  }

  /** `hi` follows `lo`, or is the first while `lo` is unknown. */
  predicate Neighbours(keys: seq<Key>, lo: Key, hi: Key) {
    IndexOf(keys, hi) - IndexOf(keys, lo) == 1
  }

  const MAX_PENDING := 20
  const ASK_PER_ROUND := 1
  const HELP_PER_ROUND := 3

  function AtLeastZero(n: int): nat {
    if n < 0 then 0 else n
  }

  predicate HasNews(msgs: seq<Msg>) {
    exists t :: 0 <= t < |msgs| && msgs[t].Novelty?
  }

  lemma NoNews(c: Claim)
    ensures !HasNews([]) && !HasNews([Range(c)])
  {
  }

  /** What is sent, case by case. */
  lemma SentFor(keys: seq<Key>, c: Claim, ask: int, help: int)
    ensures var v, sent := Judge(keys, c), Sent(keys, c, ask, help);
      && (v == Settled ==> sent == [])
      && (v != Settled ==>
        var asked := if v != Richer && ask > 0 then [Range(Own(keys, c))] else [];
        sent == asked + if v == Lacking || help <= 0 then [] else HelpFor(keys, IndexOf(keys, c.lo), IndexOf(keys, c.hi)))
  {
    hide Judge, Own, HelpFor, IndexOf;
  }

  lemma NewsInside(a: seq<Msg>, b: seq<Msg>, c: seq<Msg>)
    ensures HasNews(a + b) <==> HasNews(a) || HasNews(b)
    ensures HasNews(a + b + c) <==> HasNews(a) || HasNews(b) || HasNews(c)
  {
    NewsInTwo(a, b);
    NewsInTwo(a + b, c);
  }

  lemma NewsInTwo(a: seq<Msg>, b: seq<Msg>)
    ensures HasNews(a + b) <==> HasNews(a) || HasNews(b)
  {
    if HasNews(a) {
      var t :| 0 <= t < |a| && a[t].Novelty?;
      assert (a + b)[t].Novelty?;
    }
    if HasNews(b) {
      var t :| 0 <= t < |b| && b[t].Novelty?;
      assert (a + b)[|a| + t].Novelty?;
    }
  }

  lemma EachHonest(all: set<Key>, msgs: seq<Msg>)
    requires msgs == []
    ensures AllHonest(all, msgs)
  {
  }

  lemma HonestFirst(all: set<Key>, m: Msg, msgs: seq<Msg>)
    requires HonestMsg(all, m) && AllHonest(all, msgs)
    ensures AllHonest(all, [m] + msgs)
  {
  }

  /** Smallest claim first; claims of one size stay in order. */
  function BySize(pend: seq<Claim>): seq<Claim> {
    if pend == [] then [] else Placed(BySize(pend[..|pend| - 1]), pend[|pend| - 1])
  }

  function Placed(pend: seq<Claim>, c: Claim): seq<Claim> {
    if pend == [] || pend[|pend| - 1].sz <= c.sz then pend + [c]
    else Placed(pend[..|pend| - 1], c) + [pend[|pend| - 1]]
  }

  ghost predicate Ascending(pend: seq<Claim>) {
    forall i, j :: 0 <= i < j < |pend| ==> pend[i].sz <= pend[j].sz
  }

  lemma {:induction false} PlacedMembers(pend: seq<Claim>, c: Claim)
    ensures multiset(Placed(pend, c)) == multiset(pend) + multiset{c}
  {
    if pend != [] && pend[|pend| - 1].sz > c.sz {
      var front, last := pend[..|pend| - 1], pend[|pend| - 1];
      PlacedMembers(front, c);
      assert pend == front + [last];
    }
  }

  ghost predicate AllAtMost(pend: seq<Claim>, n: nat) {
    forall k :: 0 <= k < |pend| ==> pend[k].sz <= n
  }

  lemma {:induction false} PlacedSorts(pend: seq<Claim>, c: Claim, n: nat)
    requires Ascending(pend) && AllAtMost(pend, n) && c.sz <= n
    ensures Ascending(Placed(pend, c)) && AllAtMost(Placed(pend, c), n)
  {
    if pend != [] && pend[|pend| - 1].sz > c.sz {
      var front, last := pend[..|pend| - 1], pend[|pend| - 1];
      PlacedSorts(front, c, last.sz);
    }
  }

  lemma {:induction false} BySizeMembers(pend: seq<Claim>)
    ensures multiset(BySize(pend)) == multiset(pend)
  {
    hide Placed;
    if pend != [] {
      var front, last := pend[..|pend| - 1], pend[|pend| - 1];
      BySizeMembers(front);
      PlacedMembers(BySize(front), last);
      assert pend == front + [last];
    }
  }

  lemma {:induction false} BySizeSorts(pend: seq<Claim>, n: nat)
    requires AllAtMost(pend, n)
    ensures Ascending(BySize(pend)) && AllAtMost(BySize(pend), n)
  {
    hide Placed, Ascending;
    if pend == [] {
      NothingAscends(n);
    } else {
      var front, last := pend[..|pend| - 1], pend[|pend| - 1];
      BySizeSorts(front, n);
      PlacedSorts(BySize(front), last, n);
    }
  }

  lemma NothingAscends(n: nat)
    ensures Ascending([]) && AllAtMost([], n)
  {
  }

  function LargestSize(pend: seq<Claim>): (n: nat)
    ensures AllAtMost(pend, n)
  {
    if pend == [] then 0
    else
      var n, last := LargestSize(pend[..|pend| - 1]), pend[|pend| - 1].sz;
      assert forall k :: 0 <= k < |pend| - 1 ==> pend[..|pend| - 1][k] == pend[k];
      if n < last then last else n
  }

  lemma BySizeIsSmallestFirst(all: set<Key>, pend: seq<Claim>)
    ensures SmallestFirst(BySize(pend), pend) && (HonestClaims(all, pend) ==> HonestClaims(all, BySize(pend)))
  {
    hide Honest;
    BySizeMembers(pend);
    BySizeSorts(pend, LargestSize(pend));
    SmallestFirstMembers(BySize(pend), pend);
  }

  lemma XorOfOne(key: Key)
    ensures XorOf([key]) == key
  {
    assert [key][..0] == [];
    XorZero(key);
  }

  lemma {:induction false} InsertedHas(keys: seq<Key>, key: Key)
    ensures forall x :: x in Inserted(keys, key) <==> x in keys || x == key
  {
    if keys != [] {
      InsertedHas(keys[..|keys| - 1], key);
    }
  }

  method FirstIndex(keys: seq<Key>, key: Key) returns (i: int)
    ensures i == IndexOf(keys, key)
  {
    for k := 0 to |keys|
      invariant IndexOf(keys[..k], key) == -1
    {
      assert keys[..k + 1][..k] == keys[..k];
      if keys[k] == key {
        IndexOfPrefix(keys, key, k + 1);
        return k;
      }
    }
    assert keys[..|keys|] == keys;
    i := -1;
  }
}
