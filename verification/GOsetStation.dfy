/** The set of feed keys on the ESP32: fixed tables, repaired in place, and the
    rounds in which a station asks for help and gives it. */
module GOsetStation {
  import opened Basics
  import opened KeySets
  import opened Reconciliation

  const MAX_PENDING := 10
  const ASK_PER_ROUND := 1
  const HELP_PER_ROUND := 2
  const NOVELTY_PER_ROUND := 1

  class GOsetClass {
    const table: array<Key>       // goset_keys
    var len: nat                  // goset_len
    const claims: array<Claim>    // pending_claims
    var claimCnt: nat
    var novelties: seq<Key>       // pending_novelty
    var noveltyCredit: int
    var largestClaimSpan: nat
    var state: Key

    ghost predicate Valid()
      reads this, table
    {
      && table.Length == MAX_KEYS && claims.Length == MAX_PENDING
      && len <= MAX_KEYS && claimCnt <= MAX_PENDING && |novelties| <= MAX_PENDING
      && Sorted(table[..len])
      && forall i :: len <= i < MAX_KEYS ==> table[i] == ZERO
    }

    function Keys(): seq<Key>
      reads this, table
      requires len <= table.Length
    {
      table[..len]
    }

    function Claims(): seq<Claim>
      reads this, claims
      requires claimCnt <= claims.Length
    {
      claims[..claimCnt]
    }

    /** All that is known here are keys from `all`, and the claims that wait are
        true of such keys. */
    ghost predicate Within(all: set<Key>)
      reads this, table, claims
    {
      Valid() && SetOf(Keys()) <= all && HonestClaims(all, Claims()) && forall k :: k in novelties ==> k in all
    }

    constructor ()
      ensures Valid() && Keys() == [] && Claims() == [] && novelties == [] && fresh(table) && fresh(claims)
    {
      table := new Key[MAX_KEYS](i => ZERO);
      claims := new Claim[MAX_PENDING](i => Claim(ZERO, ZERO, ZERO, 0));
      len, claimCnt, novelties, noveltyCredit, largestClaimSpan, state := 0, 0, [], 0, 0, ZERO;
    }

    method XorRange(lo: nat, hi: nat) returns (sum: Key)
      requires lo <= hi < len <= table.Length
      ensures sum == XorOf(Keys()[lo..hi + 1])
    {
      sum := ZERO;
      ghost var keys := Keys();
      assert keys[lo..lo] == [];
      for i := lo to hi + 1
        invariant sum == XorOf(keys[lo..i])
      {
        assert keys[lo..i + 1][..i - lo] == keys[lo..i];
        sum := Xor(sum, table[i]);
      }
    }

    method MkClaim(lo: nat, hi: nat) returns (cl: Claim)
      requires lo <= hi < len <= table.Length
      ensures cl == MakeClaim(Keys(), lo, hi)
    {
      var xo := XorRange(lo, hi);
      cl := Claim(table[lo], table[hi], xo, hi - lo + 1);
    }

    method SwapDown(j: nat, key: Key)
      requires 0 < j < len <= table.Length && table[j] == key
      modifies table
      ensures table[..j - 1] == old(table[..j - 1]) && table[j - 1] == key
      ensures table[j..len] == [old(table[j - 1])] + old(table[j + 1..len])
      ensures forall i :: len <= i < table.Length ==> table[i] == old(table[i])
    {
      table[j], table[j - 1] := table[j - 1], key;
    }

    /** The last key is moved to its place. */
    method SortKeys(ghost keys: seq<Key>, key: Key)
      requires len <= table.Length && len == |keys| + 1 && table[..len] == keys + [key]
      modifies table
      ensures table[..len] == Inserted(keys, key)
      ensures forall i :: len <= i < table.Length ==> table[i] == old(table[i])
    {
      hide Inserted, Less;
      var j := len - 1;
      assert keys[..j] == keys;
      assert table[j + 1..len] == [];
      while j > 0 && !Less(table[j - 1], key)
        invariant j < len && table[..j] == keys[..j] && table[j] == key
        invariant Inserted(keys, key) == Inserted(keys[..j], key) + table[j + 1..len]
        invariant forall i :: len <= i < table.Length ==> table[i] == old(table[i])
      {
        assert keys[j - 1] == table[j - 1];
        InsertedBefore(keys, key, j);
        SwapDown(j, key);
        j := j - 1;
      }
      assert table[..len] == table[..j] + [key] + table[j + 1..len];
      assert j > 0 ==> table[j - 1] == keys[j - 1];
      InsertedHere(keys, key, j);
    }

    /** Keys that are zero, known, or too many are not taken. A new one is passed on if
        no larger set has been heard of and credit is left. */
    method Add(key: Key, ghost all: set<Key>) returns (out: seq<Msg>)
      requires Within(all) && (key in all || key == ZERO)
      modifies this`len, this`novelties, this`noveltyCredit, this`state, table
      ensures Within(all) && Keys() == Added(old(Keys()), key) && SetOf(old(Keys())) <= SetOf(Keys())
      ensures AllHonest(all, out)
      ensures Mail(out, noveltyCredit, novelties) == Told(key, len != old(len), len, largestClaimSpan, old(noveltyCredit), old(novelties))
      ensures state == if len != old(len) then XorOf(Keys()) else old(state)
    {
      hide Less, XorOf, Honest;
      out := [];
      AddedKeeps(Keys(), key);
      if key == ZERO {
        return;
      }
      for i := 0 to len
        invariant key !in table[..i]
      {
        if table[i] == key {
          return;
        }
      }
      if len >= MAX_KEYS {
        return;
      }
      ghost var before := Keys();
      AddToTable(key);
      if len >= largestClaimSpan {
        noveltyCredit := noveltyCredit - 1;
        if noveltyCredit + 1 > 0 {
          out := [Novelty(key)];
        } else if |novelties| < MAX_PENDING {
          novelties := novelties + [key];
        }
      }
      var sum := XorRange(0, len - 1);
      assert Keys()[0..len] == Keys();
      state := sum;
    }

    method AddToTable(key: Key)
      requires Valid() && key != ZERO && key !in Keys() && len < MAX_KEYS
      modifies this`len, table
      ensures Valid() && Keys() == Inserted(old(Keys()), key) && len == old(len) + 1
    {
      hide Less;
      ghost var before := Keys();
      table[len] := key;
      len := len + 1;
      assert table[..len] == before + [key];
      SortKeys(before, key);
      InsertedSorted(before, key);
    }

    method AddPending(cl: Claim, ghost all: set<Key>)
      requires Within(all) && Honest(all, cl)
      modifies this`claimCnt, claims
      ensures Within(all) && Claims() == old(WithClaim(cl))
    {
      hide Honest, Sorted;
      if claimCnt >= MAX_PENDING {
        return;
      }
      for i := 0 to claimCnt
        invariant cl !in claims[..i]
      {
        if claims[i] == cl {
          return;
        }
      }
      ghost var before := Claims();
      claims[claimCnt] := cl;
      claimCnt := claimCnt + 1;
      assert Claims() == before + [cl];
    }

    /** A message comes in; its payload follows the prefix. */
    method Rx(pkt: Bytes, ghost all: set<Key>) returns (out: seq<Msg>)
      requires Within(all) && (|pkt| >= 7 && Parsed(pkt[7..]).Some? ==> HonestMsg(all, Parsed(pkt[7..]).value))
      modifies this`len, this`claimCnt, this`novelties, this`noveltyCredit, this`largestClaimSpan, this`state, table, claims
      ensures Within(all) && AllHonest(all, out) && SetOf(old(Keys())) <= SetOf(Keys())
      ensures Keys() == old(KeysAfter(pkt)) && Claims() == old(ClaimsAfter(pkt)) && largestClaimSpan == old(SpanAfter(pkt))
      ensures |pkt| >= 7 && Parsed(pkt[7..]).Some? && |old(Keys())| <= 98 ==> Learned(old(Keys()), Keys(), Parsed(pkt[7..]).value)
      ensures |pkt| >= 7 && Parsed(pkt[7..]).Some? ==> Remembered(old(Claims()), Claims(), Parsed(pkt[7..]).value)
      ensures |pkt| >= 7 && Parsed(pkt[7..]).Some? ==>
        Mail(out, noveltyCredit, novelties) == PassedOn(old(Keys()), Keys(), Parsed(pkt[7..]).value, largestClaimSpan, old(noveltyCredit), old(novelties))
      ensures |pkt| < 7 || Parsed(pkt[7..]) == None ==> out == []
    {
      hide SetOf, Sorted, Honest, HonestClaims, Parsed, Added;
      out := [];
      if |pkt| < 7 {
        return;
      }
      var parsed := Parsed(pkt[7..]);
      if parsed == None {
        return;
      }
      if len <= 98 {
        KeysLearned(pkt);
      }
      match parsed.value
      case Novelty(key) =>
        out := Add(key, all);
      case Range(cl) =>
        if cl.lo == ZERO {
          return;
        }
        EndsAreHeld(all, cl);
        if cl.sz > largestClaimSpan {
          largestClaimSpan := cl.sz;
        }
        out := Add(cl.lo, all);
        var more := Add(cl.hi, all);
        out := out + more;
        AddPending(cl, all);
    }

    lemma KeysLearned(pkt: Bytes)
      requires Valid() && |pkt| >= 7 && Parsed(pkt[7..]).Some? && len <= 98
      ensures Learned(Keys(), KeysAfter(pkt), Parsed(pkt[7..]).value)
    {
      hide SetOf, Sorted, Inserted, Parsed;
      match Parsed(pkt[7..]).value
      case Novelty(key) => AddedKeeps(Keys(), key);
      case Range(cl) =>
        AddedKeeps(Keys(), cl.lo);
        AddedKeeps(Added(Keys(), cl.lo), cl.hi);
    }

    function WithClaim(cl: Claim): seq<Claim>
      reads this, claims
      requires claimCnt <= claims.Length
    {
      if claimCnt >= MAX_PENDING || cl in Claims() then Claims() else Claims() + [cl]
    }

    function SpanAfter(pkt: Bytes): nat
      reads this
    {
      if |pkt| < 7 then largestClaimSpan
      else
        match Parsed(pkt[7..])
        case Some(Range(cl)) => if cl.lo != ZERO && cl.sz > largestClaimSpan then cl.sz else largestClaimSpan
        case _ => largestClaimSpan
    }

    /** The largest claim that has been heard of, but for those that start with zero. */
    lemma SpanGrows(pkt: Bytes, cl: Claim)
      requires |pkt| >= 7
      ensures SpanAfter(pkt) >= largestClaimSpan
      ensures Parsed(pkt[7..]) == Some(Range(cl)) && cl.lo != ZERO ==> SpanAfter(pkt) >= cl.sz && (SpanAfter(pkt) == largestClaimSpan || SpanAfter(pkt) == cl.sz)
    {
      hide Parsed;
    }

    function ClaimsAfter(pkt: Bytes): seq<Claim>
      reads this, claims
      requires claimCnt <= claims.Length
    {
      if |pkt| < 7 then Claims()
      else
        match Parsed(pkt[7..])
        case Some(Range(cl)) => if cl.lo == ZERO then Claims() else WithClaim(cl)
        case _ => Claims()
    }

    function KeysAfter(pkt: Bytes): seq<Key>
      reads this, table
      requires len <= table.Length
    {
      if |pkt| < 7 then Keys()
      else
        match Parsed(pkt[7..])
        case None => Keys()
        case Some(Novelty(key)) => Added(Keys(), key)
        case Some(Range(cl)) => if cl.lo == ZERO then Keys() else Added(Added(Keys(), cl.lo), cl.hi)
    }

    // -------------------------------------------------------------- a round

    method KeyIndex(key: Key) returns (i: int)
      requires len <= table.Length
      ensures i == IndexOf(Keys(), key)
    {
      for k := 0 to len
        invariant IndexOf(table[..k], key) == -1
      {
        assert table[..k + 1][..k] == table[..k];
        if table[k] == key {
          assert Keys()[..k + 1] == table[..k + 1];
          IndexOfPrefix(Keys(), key, k + 1);
          return k;
        }
      }
      i := -1;
    }

    /** The claims behind position `i` move up by one. */
    method RemoveClaim(i: nat)
      requires i < claimCnt <= claims.Length
      modifies this`claimCnt, claims
      ensures claimCnt == old(claimCnt) - 1
      ensures Claims() == old(Claims())[..i] + old(Claims())[i + 1..]
    {
      for k := i to claimCnt - 1
        invariant claimCnt == old(claimCnt)
        invariant forall m :: 0 <= m < i ==> claims[m] == old(claims[m])
        invariant forall m :: i <= m < k ==> claims[m] == old(claims[m + 1])
        invariant forall m :: k <= m < claims.Length ==> claims[m] == old(claims[m])
      {
        claims[k] := claims[k + 1];
      }
      claimCnt := claimCnt - 1;
    }

    /** Smallest span first. */
    method SortClaims()
      requires claimCnt <= claims.Length
      modifies claims
      ensures SmallestFirst(Claims(), old(Claims()))
    {
      for n := 0 to claimCnt
        invariant multiset(Claims()) == multiset(old(Claims()))
        invariant forall i, j :: 0 <= i < j < n ==> claims[i].sz <= claims[j].sz
      {
        var j := n;
        while j > 0 && claims[j - 1].sz > claims[j].sz
          invariant j <= n
          invariant multiset(Claims()) == multiset(old(Claims()))
          invariant forall a, b :: 0 <= a < b <= n && b != j ==> claims[a].sz <= claims[b].sz
        {
          SwapClaims(j);
          j := j - 1;
        }
      }
    }

    method SwapClaims(j: nat)
      requires 0 < j < claimCnt <= claims.Length
      modifies claims
      ensures multiset(Claims()) == multiset(old(Claims()))
      ensures claims[j] == old(claims[j - 1]) && claims[j - 1] == old(claims[j])
      ensures forall i :: 0 <= i < claims.Length && i != j && i != j - 1 ==> claims[i] == old(claims[i])
    {
      ghost var before := Claims();
      claims[j - 1], claims[j] := claims[j], claims[j - 1];
      assert Claims() == before[j - 1 := before[j]][j := before[j - 1]];
    }

    /** What is sent to one who lacks a key between two others. */
    method Help(first: nat, last: nat) returns (out: seq<Msg>)
      requires Valid() && first <= last < len
      ensures out == HelpFor(Keys(), first, last)
    {
      hide XorOf, Sorted;
      var hi, lo := last - 1, first + 1;
      if hi <= lo {
        var key := if lo < MAX_KEYS then table[lo] else ZERO;
        out := [Novelty(key)];
      } else if hi - lo <= 2 {
        var cl := MkClaim(lo, hi);
        out := [Range(cl)];
      } else {
        var sz := (hi + 1 - lo) / 2;
        var front := MkClaim(lo, lo + sz - 1);
        var back := MkClaim(lo + sz, hi);
        out := [Range(front), Range(back)];
      }
    }

    /** The claim at position `i` is answered, and removed unless it is to stay. */
    method AnswerOne(i: nat, ask: int, help: int) returns (out: seq<Msg>, stays: bool, maxAsk: int, maxHelp: int)
      requires Valid() && i < claimCnt
      modifies this`claimCnt, claims
      ensures Valid()
      ensures var v := Judge(Keys(), old(Claims())[i]);
        && out == Sent(Keys(), old(Claims())[i], ask, help)
        && stays == Stays(v, help) && maxAsk == AskLeft(v, ask) && maxHelp == HelpLeft(v, help)
      ensures Claims() == if stays then old(Claims()) else old(Claims())[..i] + old(Claims())[i + 1..]
    {
      hide XorOf, Sorted, HelpFor, IndexOf;
      out, maxAsk, maxHelp := [], ask, help;
      var cp := claims[i];
      var lo := KeyIndex(cp.lo);
      var hi := KeyIndex(cp.hi);
      IndexInside(Keys(), cp.lo);
      IndexInside(Keys(), cp.hi);
      if cp.sz == 0 || lo < 0 || hi < 0 || lo > hi {
        RemoveClaim(i);
        return out, false, maxAsk, maxHelp;
      }
      var partial := MkClaim(lo, hi);
      if partial.xo == cp.xo {
        RemoveClaim(i);
        return out, false, maxAsk, maxHelp;
      }
      if partial.sz <= cp.sz {
        if maxAsk > 0 {
          out := [Range(partial)];
        }
        maxAsk := maxAsk - 1;
        if partial.sz < cp.sz {
          return out, true, maxAsk, maxHelp;
        }
      }
      maxHelp := maxHelp - 1;
      if maxHelp + 1 > 0 {
        var more := Help(lo, hi);
        out := out + more;
        RemoveClaim(i);
        return out, false, maxAsk, maxHelp;
      }
      stays := true;
    }

    /** Going through the pending claims, in place. */
    method AnswerClaims() returns (out: seq<Msg>)
      requires Valid()
      modifies this`claimCnt, claims
      ensures Valid()
      ensures out == Round(Keys(), old(Claims()), ASK_PER_ROUND, HELP_PER_ROUND).0
      ensures Claims() == Round(Keys(), old(Claims()), ASK_PER_ROUND, HELP_PER_ROUND).1
    {
      hide Round, Judge, Sent, Sorted, Stays, AskLeft, HelpLeft;
      var maxAsk, maxHelp := ASK_PER_ROUND, HELP_PER_ROUND;
      out := [];
      ghost var keys, all := Keys(), Claims();
      var i := 0;
      assert Claims()[..0] == [] && Claims()[0..] == all;
      RoundStarts(keys, all, maxAsk, maxHelp);
      while i < claimCnt
        invariant Valid() && i <= claimCnt && Keys() == keys
        invariant Underway(keys, all, ASK_PER_ROUND, HELP_PER_ROUND, out, Claims()[..i], Claims()[i..], maxAsk, maxHelp)
        decreases claimCnt - i
      {
        ghost var was := Claims();
        RoundGoesOn(keys, all, ASK_PER_ROUND, HELP_PER_ROUND, out, was[..i], was[i..], maxAsk, maxHelp);
        assert was[i..][0] == was[i] && was[i..][1..] == was[i + 1..];
        var more, stays;
        more, stays, maxAsk, maxHelp := AnswerOne(i, maxAsk, maxHelp);
        out := out + more;
        if stays {
          assert Claims()[..i + 1] == was[..i] + [was[i]];
          i := i + 1;
        } else {
          assert Claims()[i..] == was[i + 1..] && Claims()[..i] == was[..i];
        }
      }
      assert Claims()[i..] == [] && Claims()[..i] == Claims();
      RoundEnds(keys, all, ASK_PER_ROUND, HELP_PER_ROUND, out, Claims(), maxAsk, maxHelp);
    }

    /** One round. A station that knows a single key cannot make a claim and sends the
        key. Otherwise it sends what waits as news, the claim over all its keys, and
        the answers to the claims of others; the smallest unanswered ones are kept. */
    method Tick(ghost all: set<Key>) returns (out: seq<Msg>)
      requires Within(all)
      modifies this`claimCnt, this`novelties, this`noveltyCredit, this`state, claims
      ensures Within(all) && AllHonest(all, out)
      ensures len == 0 ==> out == []
      ensures len == 1 ==> out == [Novelty(Keys()[0])]
      ensures len > 1 ==>
        && state == XorOf(Keys()) && noveltyCredit == 1
        && var n := NewsCount(old(noveltyCredit), |old(novelties)|);
        && novelties == old(novelties)[n..]
        && exists sorted {:trigger SmallestFirst(sorted, old(Claims()))} ::
             && SmallestFirst(sorted, old(Claims()))
             && var r := Round(Keys(), sorted, 1, 2);
                && out == News(old(novelties)[..n]) + [Range(MakeClaim(Keys(), 0, len - 1))] + r.0
                && Claims() == if |r.1| > 5 then r.1[..5] else r.1
    {
      hide XorOf, Sorted, Round, Honest, SmallestFirst, News;
      if len == 0 {
        return [];
      }
      if len == 1 {
        assert Keys()[0] in SetOf(Keys());
        return [Novelty(table[0])];
      }
      out := SendNews(all);
      ghost var news := out;
      var claim := MkClaim(0, len - 1);
      assert Keys()[0..len] == Keys();
      OwnIsHonest(all, Keys(), 0, len - 1);
      if state != claim.xo {
        state := claim.xo;
      }
      out := out + [Range(claim)];
      ghost var before := Claims();
      SortClaims();
      ghost var sorted := Claims();
      SmallestFirstMembers(sorted, before);
      RoundIsHonest(all, Keys(), sorted, ASK_PER_ROUND, HELP_PER_ROUND);
      var answers := AnswerClaims();
      ghost var kept := Claims();
      assert out + answers == news + [Range(claim)] + answers;
      out := out + answers;
      if claimCnt > MAX_PENDING - 5 {
        claimCnt := MAX_PENDING - 5;
        assert Claims() == kept[..claimCnt];
      }
    }

    /** News that waits is sent, as far as the credit goes. */
    method SendNews(ghost all: set<Key>) returns (out: seq<Msg>)
      requires Within(all)
      modifies this`novelties, this`noveltyCredit
      ensures Within(all) && AllHonest(all, out) && noveltyCredit == NOVELTY_PER_ROUND
      ensures var n := NewsCount(old(noveltyCredit), |old(novelties)|);
        out == News(old(novelties)[..n]) && novelties == old(novelties)[n..]
    {
      hide Sorted, SetOf, HonestClaims;
      out := [];
      ghost var k := 0;
      while noveltyCredit > 0 && |novelties| > 0
        invariant Within(all) && AllHonest(all, out)
        invariant 0 <= k <= |old(novelties)| && novelties == old(novelties)[k..] && out == News(old(novelties)[..k])
        invariant noveltyCredit == old(noveltyCredit) - k && (k > 0 ==> noveltyCredit >= 0)
        decreases |novelties|
      {
        noveltyCredit := noveltyCredit - 1;
        out := out + [Novelty(novelties[0])];
        assert old(novelties)[..k + 1] == old(novelties)[..k] + [novelties[0]];
        novelties := novelties[1..];
        k := k + 1;
      }
      noveltyCredit := NOVELTY_PER_ROUND;
    }
  }

  /** After the message its receiver holds what it names, as far as that is no zero key; a
      claim that starts with zero is ignored. */
  ghost predicate Learned(before: seq<Key>, after: seq<Key>, m: Msg) {
    && SetOf(before) <= SetOf(after)
    && match m
       case Novelty(key) => key != ZERO ==> key in SetOf(after)
       case Range(cl) => cl.lo != ZERO ==> cl.lo in SetOf(after) && (cl.hi != ZERO ==> cl.hi in SetOf(after))
  }

  /** A claim waits to be answered, if there is room. */
  ghost predicate Remembered(before: seq<Claim>, after: seq<Claim>, m: Msg) {
    m.Range? && m.claim.lo != ZERO && |before| < 10 ==> m.claim in after
  }

  /** What is sent, what credit is left, and what waits to be sent. */
  datatype Mail = Mail(out: seq<Msg>, credit: int, waiting: seq<Key>)

  /** What becomes of the news of a key. */
  function Told(key: Key, isNew: bool, len: nat, span: nat, credit: int, waiting: seq<Key>): Mail {
    if !isNew || len < span then Mail([], credit, waiting)
    else if credit > 0 then Mail([Novelty(key)], credit - 1, waiting)
    else Mail([], credit - 1, if |waiting| < MAX_PENDING then waiting + [key] else waiting)
  }

  /** A new key is passed on at once or waits for its turn, unless a larger set is known of
      or ten keys wait already; a key that was known is not passed on. */
  lemma ToldMeans(key: Key, isNew: bool, len: nat, span: nat, credit: int, waiting: seq<Key>)
    ensures var t := Told(key, isNew, len, span, credit, waiting);
      && (isNew && len >= span ==> t.out == [Novelty(key)] || key in t.waiting || |waiting| >= 10)
      && (isNew && len >= span && credit > 0 ==> t.out == [Novelty(key)])
      && (!isNew || len < span ==> t.out == [] && t.waiting == waiting && t.credit == credit)
      && |waiting| <= |t.waiting| && t.waiting[..|waiting|] == waiting && forall k :: k in t.waiting ==> k in waiting || k == key
  {
  }

  /** What becomes of the news that a message brings. */
  function PassedOn(before: seq<Key>, after: seq<Key>, m: Msg, span: nat, credit: int, waiting: seq<Key>): Mail {
    match m
    case Novelty(key) => Told(key, |after| != |before|, |after|, span, credit, waiting)
    case Range(cl) =>
      if cl.lo == ZERO then Mail([], credit, waiting)
      else
        var one := |Added(before, cl.lo)|;
        var t := Told(cl.lo, one != |before|, one, span, credit, waiting);
        var u := Told(cl.hi, |after| != one, |after|, span, t.credit, t.waiting);
        Mail(t.out + u.out, u.credit, u.waiting)
  }

  function NewsCount(credit: int, waiting: nat): nat {
    if credit <= 0 then 0 else if credit < waiting then credit else waiting
  }

  /** News goes out one by one, as long as there is credit and some waits. */
  lemma NewsMeans(credit: int, waiting: seq<Key>)
    ensures var n := NewsCount(credit, |waiting|);
      && n <= |waiting| && (n < |waiting| ==> credit <= n) && (n > 0 ==> n <= credit)
      && |News(waiting[..n])| == n && forall i :: 0 <= i < n ==> News(waiting[..n])[i] == Novelty(waiting[i])
  {
  }

  function News(keys: seq<Key>): (msgs: seq<Msg>)
    ensures |msgs| == |keys|
  {
    seq(|keys|, i requires 0 <= i < |keys| => Novelty(keys[i]))
  }

  lemma InsertedBefore(keys: seq<Key>, key: Key, j: nat)
    requires 0 < j <= |keys| && !Less(keys[j - 1], key)
    ensures Inserted(keys[..j], key) == Inserted(keys[..j - 1], key) + [keys[j - 1]]
  {
    hide Less;
    assert keys[..j][..j - 1] == keys[..j - 1];
  }

  lemma InsertedHere(keys: seq<Key>, key: Key, j: nat)
    requires j <= |keys| && (j == 0 || Less(keys[j - 1], key))
    ensures Inserted(keys[..j], key) == keys[..j] + [key]
  {
    hide Less;
  }
}
