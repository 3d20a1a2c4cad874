/** Serving many places in turn, one packet to each in a round, until there is no more
    credit or nothing left. */
module RoundRobin {
  import opened Basics

  /** What place `i` gets as its `n`-th packet, if that is here. */
  type Asked = (nat, nat) -> Option<Bytes>

  datatype Turn = Turn(round: nat, place: nat)

  /** Round by round, and in each round place by place. */
  predicate Before(a: Turn, b: Turn) {
    a.round < b.round || (a.round == b.round && a.place < b.place)
  }

  /** Place `i` has something in each of the first `n` rounds. */
  ghost predicate Running(ask: Asked, i: nat, n: nat) {
    forall k: nat {:trigger ask(i, k)} :: k < n ==> ask(i, k).Some?
  }

  ghost predicate Due(ask: Asked, places: nat, t: Turn) {
    t.place < places && Running(ask, t.place, t.round + 1)
  }

  /** The packets of these turns, in their order. */
  ghost predicate InTurn(ask: Asked, places: nat, lst: seq<Bytes>, turns: seq<Turn>) {
    && |turns| == |lst|
    && (forall m {:trigger turns[m]} :: 0 <= m < |turns| ==> Due(ask, places, turns[m]) && ask(turns[m].place, turns[m].round) == Some(lst[m]))
    && (forall m, k {:trigger turns[m], turns[k]} :: 0 <= m < k < |turns| ==> Before(turns[m], turns[k]))
  }

  /** No turn that is due is left out, but for lack of credit, those at the end. */
  ghost predicate Served(ask: Asked, places: nat, credit: nat, lst: seq<Bytes>, turns: seq<Turn>)
    requires credit > 0
  {
    && InTurn(ask, places, lst, turns) && |lst| <= credit
    && forall t: Turn {:trigger Due(ask, places, t)} :: Due(ask, places, t) && (|lst| < credit || !Before(turns[|turns| - 1], t)) ==> t in turns
  }

  /** By that, what is sent is determined. */
  lemma ServedOnce(ask: Asked, places: nat, credit: nat, lst: seq<Bytes>, turns: seq<Turn>, lst': seq<Bytes>, turns': seq<Turn>)
    requires credit > 0 && Served(ask, places, credit, lst, turns) && Served(ask, places, credit, lst', turns')
    ensures lst == lst' && turns == turns'
  {
    hide Running;
    var n := if |turns| < |turns'| then |turns| else |turns'|;
    SameTurns(ask, places, credit, lst, turns, lst', turns', n);
    NoMore(ask, places, credit, lst, turns, lst', turns');
    NoMore(ask, places, credit, lst', turns', lst, turns);
    forall m | 0 <= m < n ensures lst[m] == lst'[m] {
      assert turns[m] == turns'[m];
    }
  }

  lemma {:induction false} SameTurns(ask: Asked, places: nat, credit: nat, lst: seq<Bytes>, turns: seq<Turn>, lst': seq<Bytes>, turns': seq<Turn>, n: nat)
    requires credit > 0 && Served(ask, places, credit, lst, turns) && Served(ask, places, credit, lst', turns')
    requires n <= |turns| && n <= |turns'|
    ensures turns[..n] == turns'[..n]
  {
    hide Due;
    if n > 0 {
      var m := n - 1;
      SameTurns(ask, places, credit, lst, turns, lst', turns', m);
      assert forall j :: 0 <= j < m ==> turns[..m][j] == turns[j] && turns'[..m][j] == turns'[j];
      NotEarlier(ask, places, credit, lst, turns, lst', turns', m);
      NotEarlier(ask, places, credit, lst', turns', lst, turns, m);
    }
  }

  lemma NotEarlier(ask: Asked, places: nat, credit: nat, lst: seq<Bytes>, turns: seq<Turn>, lst': seq<Bytes>, turns': seq<Turn>, m: nat)
    requires credit > 0 && Served(ask, places, credit, lst, turns) && Served(ask, places, credit, lst', turns')
    requires m < |turns| && m < |turns'| && forall j :: 0 <= j < m ==> turns[j] == turns'[j]
    ensures !Before(turns[m], turns'[m])
  {
    hide Due;
    assert Due(ask, places, turns[m]);
    assert |turns'| - 1 > m ==> Before(turns'[m], turns'[|turns'| - 1]);
  }

  lemma NoMore(ask: Asked, places: nat, credit: nat, lst: seq<Bytes>, turns: seq<Turn>, lst': seq<Bytes>, turns': seq<Turn>)
    requires credit > 0 && Served(ask, places, credit, lst, turns) && Served(ask, places, credit, lst', turns')
    requires |turns| < |turns'| ==> turns == turns'[..|turns|]
    ensures |turns| >= |turns'|
  {
    hide Due;
    var n := |turns|;
    if n < |turns'| && turns == turns'[..n] {
      forall j | 0 <= j < n ensures turns[j] != turns'[n] {
        assert turns[j] == turns'[j] && Before(turns'[j], turns'[n]);
      }
      assert turns'[n] !in turns;
      OneIsDue(ask, places, lst', turns', n);
    }
  }

  lemma OneIsDue(ask: Asked, places: nat, lst: seq<Bytes>, turns: seq<Turn>, n: nat)
    requires InTurn(ask, places, lst, turns) && n < |turns|
    ensures Due(ask, places, turns[n])
  {
  }

  // ------------------------------------------------------------ going round

  /** Everything before turn `now` is done. */
  ghost predicate Until(ask: Asked, places: nat, lst: seq<Bytes>, turns: seq<Turn>, now: Turn) {
    && InTurn(ask, places, lst, turns)
    && (forall m {:trigger turns[m]} :: 0 <= m < |turns| ==> Before(turns[m], now))
    && (forall t: Turn {:trigger Due(ask, places, t)} :: Due(ask, places, t) && Before(t, now) ==> t in turns)
  }

  /** Place `i` has got `c` packets in `r` rounds. */
  ghost predicate Level(ask: Asked, i: nat, c: nat, r: nat) {
    Running(ask, i, c) && c <= r && (c < r ==> ask(i, c) == None)
  }

  ghost predicate Levels(ask: Asked, cnt: seq<nat>, now: Turn) {
    forall i {:trigger cnt[i]} :: 0 <= i < |cnt| ==> Level(ask, i, cnt[i], if i < now.place then now.round + 1 else now.round)
  }

  lemma Starts(ask: Asked, places: nat, cnt: seq<nat>)
    requires forall i :: 0 <= i < |cnt| ==> cnt[i] == 0
    ensures Until(ask, places, [], [], Turn(0, 0)) && Levels(ask, cnt, Turn(0, 0))
  {
  }

  lemma LevelFound(ask: Asked, i: nat, c: nat, r: nat, pkt: Bytes)
    requires Level(ask, i, c, r) && ask(i, c) == Some(pkt)
    ensures c == r && Running(ask, i, r + 1) && Level(ask, i, c + 1, r + 1)
  {
  }

  lemma LevelMissing(ask: Asked, i: nat, c: nat, r: nat)
    requires Level(ask, i, c, r) && ask(i, c) == None
    ensures !Running(ask, i, r + 1) && Level(ask, i, c, r + 1)
  {
  }

  lemma Found(ask: Asked, lst: seq<Bytes>, turns: seq<Turn>, cnt: seq<nat>, now: Turn, pkt: Bytes)
    requires Until(ask, |cnt|, lst, turns, now) && Levels(ask, cnt, now) && now.place < |cnt| && ask(now.place, cnt[now.place]) == Some(pkt)
    ensures Until(ask, |cnt|, lst + [pkt], turns + [now], Turn(now.round, now.place + 1))
    ensures Levels(ask, cnt[now.place := cnt[now.place] + 1], Turn(now.round, now.place + 1))
    ensures Due(ask, |cnt|, now)
  {
    hide Running, Level;
    LevelFound(ask, now.place, cnt[now.place], now.round, pkt);
    var more := turns + [now];
    forall t: Turn {:trigger Due(ask, |cnt|, t)} | Due(ask, |cnt|, t) && Before(t, Turn(now.round, now.place + 1)) ensures t in more {
      assert t in turns || t == now;
    }
  }

  lemma Missing(ask: Asked, lst: seq<Bytes>, turns: seq<Turn>, cnt: seq<nat>, now: Turn)
    requires Until(ask, |cnt|, lst, turns, now) && Levels(ask, cnt, now) && now.place < |cnt| && ask(now.place, cnt[now.place]) == None
    ensures Until(ask, |cnt|, lst, turns, Turn(now.round, now.place + 1)) && Levels(ask, cnt, Turn(now.round, now.place + 1))
    ensures !Due(ask, |cnt|, now)
  {
    hide Running, Level;
    LevelMissing(ask, now.place, cnt[now.place], now.round);
    forall t: Turn {:trigger Due(ask, |cnt|, t)} | Due(ask, |cnt|, t) && Before(t, Turn(now.round, now.place + 1)) ensures t in turns {
      assert t == now || Before(t, now);
    }
  }

  lemma NextRound(ask: Asked, lst: seq<Bytes>, turns: seq<Turn>, cnt: seq<nat>, r: nat)
    requires Until(ask, |cnt|, lst, turns, Turn(r, |cnt|)) && Levels(ask, cnt, Turn(r, |cnt|))
    ensures Until(ask, |cnt|, lst, turns, Turn(r + 1, 0)) && Levels(ask, cnt, Turn(r + 1, 0))
  {
    hide Running, Level;
  }

  /** Nobody was due in the last round. */
  lemma NothingLeft(ask: Asked, places: nat, credit: nat, lst: seq<Bytes>, turns: seq<Turn>, r: nat)
    requires Until(ask, places, lst, turns, Turn(r + 1, 0)) && |lst| < credit && forall i: nat {:trigger Turn(r, i)} :: i < places ==> !Due(ask, places, Turn(r, i))
    ensures Served(ask, places, credit, lst, turns)
  {
    forall t: Turn {:trigger Due(ask, places, t)} | Due(ask, places, t) ensures t in turns {
      assert !Due(ask, places, Turn(r, t.place));
    }
  }

  lemma NoCredit(ask: Asked, places: nat, lst: seq<Bytes>, turns: seq<Turn>, now: Turn, next: Turn)
    requires Until(ask, places, lst, turns, next) && turns != [] && turns[|turns| - 1] == now && next == Turn(now.round, now.place + 1)
    ensures Served(ask, places, |lst|, lst, turns)
  {
    hide Due;
  }

  // ----------------------------------------------------- what it comes to

  /** The first place that has anything comes first. */
  lemma FirstInTurn(ask: Asked, places: nat, credit: nat, lst: seq<Bytes>, turns: seq<Turn>, i: nat)
    requires credit > 0 && Served(ask, places, credit, lst, turns) && i < places && ask(i, 0).Some?
    requires forall j: nat {:trigger ask(j, 0)} :: j < i ==> ask(j, 0) == None
    ensures lst != [] && Some(lst[0]) == ask(i, 0)
  {
    assert Due(ask, places, Turn(0, i));
    var m :| 0 <= m < |turns| && turns[m] == Turn(0, i);
    assert m > 0 ==> Before(turns[0], turns[m]);
    assert Due(ask, places, turns[0]) && ask(turns[0].place, 0).Some?;
  }

  /** If only one place is served, it gets its packets in order. */
  lemma OnePlace(ask: Asked, credit: nat, lst: seq<Bytes>, turns: seq<Turn>)
    requires credit > 0 && Served(ask, 1, credit, lst, turns)
    ensures forall m: nat {:trigger lst[m]} :: m < |lst| ==> ask(0, m) == Some(lst[m])
    ensures |lst| < credit ==> ask(0, |lst|) == None
  {
    hide Running;
    forall m: nat | m < |turns| ensures turns[m] == Turn(m, 0) {
      RoundsInOrder(ask, credit, lst, turns, m);
    }
    forall m: nat | m < |lst| ensures ask(0, m) == Some(lst[m]) {
      assert turns[m] == Turn(m, 0);
    }
    if ask(0, |lst|).Some? {
      AllBut(ask, |lst|, lst);
      assert Due(ask, 1, Turn(|lst|, 0));
      assert Turn(|lst|, 0) !in turns;
    }
  }

  lemma AllBut(ask: Asked, n: nat, lst: seq<Bytes>)
    requires n == |lst| && ask(0, n).Some? && forall m: nat {:trigger lst[m]} :: m < |lst| ==> ask(0, m) == Some(lst[m])
    ensures Running(ask, 0, n + 1)
  {
    forall k: nat | k < n + 1 ensures ask(0, k).Some? {
      if k < n {
        assert ask(0, k) == Some(lst[k]);
      }
    }
  }

  lemma {:induction false} RoundsInOrder(ask: Asked, credit: nat, lst: seq<Bytes>, turns: seq<Turn>, m: nat)
    requires credit > 0 && Served(ask, 1, credit, lst, turns) && m < |turns|
    ensures turns[m] == Turn(m, 0)
  {
    assert Due(ask, 1, turns[m]);
    if m > 0 {
      RoundsInOrder(ask, credit, lst, turns, m - 1);
      assert Before(turns[m - 1], turns[m]);
    }
    var r := turns[m].round;
    if r > m {
      assert Due(ask, 1, Turn(m, 0));
      assert m < |turns| - 1 ==> Before(turns[m], turns[|turns| - 1]);
      assert Turn(m, 0) in turns;
    }
  }
}
