/**
 How long a user stays in memory, over every run: two minutes from the last request that found the user
 to the first pass of the timers behind them.
 */
module UserHistory {
  import opened Bytes
  import opened Users
  import opened UserTokens
  import opened UserTimes
  import opened UserServer

  /** Event `i` is a request that finds a user. */
  ghost predicate FindsAt(moments: seq<Moment>, events: seq<Event>, n: Text, i: nat)
    requires i < |events| <= |moments|
  {
    !events[i].TimePasses? && n in FoundBy(moments[i].state, moments[i].db, events[i])
  }

  /** Of the first `k` events, number `i` is the last that finds a user. */
  ghost predicate LastFind(moments: seq<Moment>, events: seq<Event>, n: Text, i: nat, k: nat)
    requires k <= |events| <= |moments|
  {
    i < k && FindsAt(moments, events, n, i) && forall j :: i < j < k ==> !FindsAt(moments, events, n, j)
  }

  /** No pass of the timers between event `i` and event `k` came at a time of `due` or later. */
  ghost predicate NoneDue(events: seq<Event>, i: nat, k: nat, due: int)
    requires k <= |events|
  {
    forall j :: i < j < k && events[j].TimePasses? ==> events[j].now < due
  }

  /**
   A user who was not in memory at first is there after some events if and only if a request has found the
   user and every pass of the timers since the last that did came less than 120 seconds behind it.
   */
  lemma InMemoryIff(moments: seq<Moment>, events: seq<Event>, n: Text, k: nat)
    requires Chronicle(moments, events) && n !in Clock(moments[0].state) && k <= |events|
    ensures n in Clock(moments[k].state) <==>
      exists i: nat :: LastFind(moments, events, n, i, k) && NoneDue(events, i, k, events[i].now + 120)
  {
    hide Passed, Clock, FindsAt, NoneDue;
    if i: nat :| LastFind(moments, events, n, i, k) {
      ClockAfter(moments, events, n, i, k);
      forall j: nat | LastFind(moments, events, n, j, k) ensures j == i {
        OneLast(moments, events, n, i, j, k);
      }
    } else {
      NeverFound(moments, events, n, k);
    }
  }

  lemma OneLast(moments: seq<Moment>, events: seq<Event>, n: Text, i: nat, j: nat, k: nat)
    requires k <= |events| <= |moments| && LastFind(moments, events, n, i, k) && LastFind(moments, events, n, j, k)
    ensures i == j
  {
    hide FindsAt;
  }

  lemma Step(moments: seq<Moment>, events: seq<Event>, k: nat)
    requires Chronicle(moments, events) && k < |events|
    ensures Clock(moments[k + 1].state) ==
      Later(Clock(moments[k].state), events[k], FoundBy(moments[k].state, moments[k].db, events[k]))
  {
    hide Clock, FoundBy;
    assert Passed(moments[k], events[k], moments[k + 1]);
  }

  lemma {:induction false} NeverFound(moments: seq<Moment>, events: seq<Event>, n: Text, k: nat)
    requires Chronicle(moments, events) && n !in Clock(moments[0].state) && k <= |events|
    requires forall i: nat :: !LastFind(moments, events, n, i, k)
    ensures n !in Clock(moments[k].state)
  {
    hide Passed, Clock, FoundBy;
    if k > 0 {
      var j := k - 1;
      assert !LastFind(moments, events, n, j, k);
      forall i: nat ensures !LastFind(moments, events, n, i, j) {
        NotLast(moments, events, n, i, k);
      }
      NeverFound(moments, events, n, j);
      Step(moments, events, j);
    }
  }

  lemma NotLast(moments: seq<Moment>, events: seq<Event>, n: Text, i: nat, k: nat)
    requires 0 < k <= |events| <= |moments| && !FindsAt(moments, events, n, k - 1) && !LastFind(moments, events, n, i, k)
    ensures !LastFind(moments, events, n, i, k - 1)
  {
  }

  /** The clock of a user from the last request that found the user on. */
  lemma {:induction false} ClockAfter(moments: seq<Moment>, events: seq<Event>, n: Text, i: nat, k: nat)
    requires Chronicle(moments, events) && k <= |events| && LastFind(moments, events, n, i, k)
    ensures var c, due := Clock(moments[k].state), events[i].now + 120;
      (n in c <==> NoneDue(events, i, k, due)) && (n in c ==> c[n] == due)
    decreases k
  {
    hide Passed, Clock, FoundBy;
    Step(moments, events, k - 1);
    if i < k - 1 {
      assert LastFind(moments, events, n, i, k - 1);
      ClockAfter(moments, events, n, i, k - 1);
      assert !FindsAt(moments, events, n, k - 1);
      OneMoreEvent(events, i, k, events[i].now + 120);
    }
  }

  lemma OneMoreEvent(events: seq<Event>, i: nat, k: nat, due: int)
    requires i < k - 1 < |events|
    ensures NoneDue(events, i, k, due) <==> NoneDue(events, i, k - 1, due) && !(events[k - 1].TimePasses? && due <= events[k - 1].now)
  {
  }

  /** In the states that requests leave, the names on the clock are those of the users in memory. */
  lemma ClockIsUsers(s: State)
    requires Safe(s)
    ensures Clock(s).Keys == s.users.Keys
  {
  }
}
