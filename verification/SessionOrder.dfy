/**
 * The order in which the relay goes through its sessions: that of their creation. It decides which
 * session a spectator leaves who becomes a streamer or viewer.
 */
module SessionOrder {
  import opened RelaySpec
  import opened RelayTypes
  import opened SpectatorGrouping

  predicate Distinct(order: seq<Sid>) {
    forall i, j | 0 <= i < j < |order| :: order[i] != order[j]
  }

  predicate Before(order: seq<Sid>, s: Sid, t: Sid) {
    exists i, j :: 0 <= i < j < |order| && order[i] == s && order[j] == t
  }

  /** From step `k` on, up to `n`, there is a session `s`, and there was none before that step. */
  ghost predicate Created(events: seq<Event>, k: nat, n: nat, s: Sid) {
    && k < n <= |events| && s !in Run(events[..k]).sessions
    && forall j | k < j <= n :: s in Run(events[..j]).sessions
  }

  // ---------------------------------------------------------------- leaving sessions out

  lemma {:induction false} WithoutKeepsOrder(order: seq<Sid>, gone: set<Sid>, s: Sid, t: Sid)
    requires s !in gone && t !in gone && Before(order, s, t)
    ensures Before(Without(order, gone), s, t)
  {
    var i, j :| 0 <= i < j < |order| && order[i] == s && order[j] == t;
    var rest, after := Without(order[1..], gone), Without(order, gone);
    if i > 0 {
      assert order[1..][i - 1] == s && order[1..][j - 1] == t;
      WithoutKeepsOrder(order[1..], gone, s, t);
      var a, b :| 0 <= a < b < |rest| && rest[a] == s && rest[b] == t;
      var shift := |after| - |rest|;
      assert after[a + shift] == s && after[b + shift] == t;
    } else {
      assert order[1..][j - 1] == t;
      var b :| 0 <= b < |rest| && rest[b] == t;
      assert after == [s] + rest && after[0] == s && after[b + 1] == t;
    }
  }

  lemma {:induction false} WithoutKeepsDistinct(order: seq<Sid>, gone: set<Sid>)
    requires Distinct(order)
    ensures Distinct(Without(order, gone))
  {
    if order != [] {
      WithoutKeepsDistinct(order[1..], gone);
      assert order[0] !in order[1..] && order[0] !in Without(order[1..], gone);
    }
  }

  // ---------------------------------------------------------------- one event

  /** The sessions that are left keep their order, and a new one comes last. */
  ghost predicate KeepsOrder(st: Relay, after: Relay) {
    && (forall s, t | s in after.sessions && t in after.sessions && Before(st.order, s, t) :: Before(after.order, s, t))
    && (forall s, t | s in st.sessions && s in after.sessions && t in after.sessions && t !in st.sessions ::
          Before(after.order, s, t))
    && Distinct(after.order)
  }

  lemma SameOrder(st: Relay, after: Relay)
    requires Distinct(st.order) && after.order == st.order && after.sessions.Keys == st.sessions.Keys
    ensures KeepsOrder(st, after)
  {
  }

  lemma LosingKeepsOrder(st: Relay, after: Relay, gone: set<Sid>)
    requires Distinct(st.order)
    requires after.order == Without(st.order, gone) && after.sessions.Keys == st.sessions.Keys - gone
    ensures KeepsOrder(st, after)
  {
    WithoutKeepsDistinct(st.order, gone);
    forall s, t | s in after.sessions && t in after.sessions && Before(st.order, s, t)
        ensures Before(after.order, s, t) {
      WithoutKeepsOrder(st.order, gone, s, t);
    }
  }

  lemma OpeningKeepsOrder(st: Relay, sid: Sid, now: Time)
    requires Distinct(st.order) && OrderMatches(st)
    ensures KeepsOrder(st, SetDefault(st, sid, now))
  {
    var after := SetDefault(st, sid, now);
    if sid !in st.sessions {
      forall s | s in st.sessions ensures Before(after.order, s, sid) {
        var i :| 0 <= i < |st.order| && st.order[i] == s;
        assert after.order[i] == s && after.order[|st.order|] == sid;
      }
      forall s, t | Before(st.order, s, t) ensures Before(after.order, s, t) {
        var i, j :| 0 <= i < j < |st.order| && st.order[i] == s && st.order[j] == t;
        assert after.order[i] == s && after.order[j] == t;
      }
    }
  }

  lemma TwoSteps(st: Relay, middle: Relay, after: Relay, sid: Sid, gone: set<Sid>)
    requires KeepsOrder(st, middle) && KeepsOrder(middle, after)
    requires middle.sessions.Keys == st.sessions.Keys + {sid} && after.sessions.Keys == middle.sessions.Keys - gone
    ensures KeepsOrder(st, after)
  {
  }

  lemma RegisteringKeepsOrder(st: Relay, sid: Sid, role: Role, port: PortType, addr: Address, now: Time)
    requires Inv(st) && Distinct(st.order) && role != Spectator
    ensures KeepsOrder(st, RegisterPeer(st, sid, role, port, addr, now))
  {
    OpeningKeepsOrder(st, sid, now);
    var st1, st2, after := SetDefault(st, sid, now), RecordPeer(st, sid, role, port, addr, now),
        RegisterPeer(st, sid, role, port, addr, now);
    RecordedOrder(st, sid, role, port, addr, now);
    OrderAfterRegistering(st, sid, role, port, addr, now);
    var gone := Overwritten(st2, sid);
    hide *;
    DistinctAfter(st, st1);
    if after == st2 {
      SameOrder(st1, after);
      TwoSteps(st, st1, after, sid, {});
    } else {
      LosingKeepsOrder(st1, after, gone);
      TwoSteps(st, st1, after, sid, gone);
    }
  }

  lemma RecordedOrder(st: Relay, sid: Sid, role: Role, port: PortType, addr: Address, now: Time)
    requires role != Spectator
    ensures var st1, st2 := SetDefault(st, sid, now), RecordPeer(st, sid, role, port, addr, now);
            && sid in st2.sessions && st2.order == st1.order
            && st2.sessions.Keys == st1.sessions.Keys == st.sessions.Keys + {sid}
  {
  }

  lemma OrderAfterRegistering(st: Relay, sid: Sid, role: Role, port: PortType, addr: Address, now: Time)
    requires role != Spectator && sid in RecordPeer(st, sid, role, port, addr, now).sessions
    ensures var st2, after := RecordPeer(st, sid, role, port, addr, now), RegisterPeer(st, sid, role, port, addr, now);
            || after == st2
            || (after.order == Without(st2.order, Overwritten(st2, sid))
                && after.sessions.Keys == st2.sessions.Keys - Overwritten(st2, sid))
  {
    hide RecordPeer, AttachSpectators, KeepTimestamps, NewMappings, Overwritten, CompleteAddresses, Without;
  }

  lemma DistinctAfter(st: Relay, after: Relay)
    requires KeepsOrder(st, after)
    ensures Distinct(after.order)
  {
  }

  lemma JoiningKeepsOrder(st: Relay, sid: Sid, port: PortType, addr: Address, now: Time)
    requires Inv(st) && Distinct(st.order)
    ensures KeepsOrder(st, RegisterSpectator(st, sid, port, addr, now))
  {
    OpeningKeepsOrder(st, sid, now);
    var st1, after := SetDefault(st, sid, now), RegisterSpectator(st, sid, port, addr, now);
    assert after.order == st1.order && after.sessions.Keys == st1.sessions.Keys == st.sessions.Keys + {sid} by {
      hide SpectatorJoins, AttachSpectators, RemoveTargets, IndexEntry;
    }
    hide RegisterSpectator, SetDefault, KeepsOrder, Inv;
    DistinctAfter(st, st1);
    SameOrder(st1, after);
    TwoSteps(st, st1, after, sid, {});
  }

  lemma CleanupKeepsOrder(st: Relay, now: Time, timeout: Time, alive: set<nat>)
    requires Distinct(st.order)
    ensures KeepsOrder(st, Cleanup(st, now, timeout, alive))
  {
    var inactive := DropInactive(ExpireRoles(DropDeadTargets(st, alive), now, timeout), now, alive);
    InactiveOrder(st, now, timeout, alive);
    var empty := DroppingEmpty(inactive);
    assert Cleanup(st, now, timeout, alive) == DropEmpty(inactive);
    hide *;
    LosingKeepsOrder(st, Cleanup(st, now, timeout, alive), empty);
  }

  lemma InactiveOrder(st: Relay, now: Time, timeout: Time, alive: set<nat>)
    ensures var inactive := DropInactive(ExpireRoles(DropDeadTargets(st, alive), now, timeout), now, alive);
            inactive.order == st.order && inactive.sessions.Keys == st.sessions.Keys
  {
    hide ExpireSession, ExpiredAddresses, KeepActive, InactiveAddresses;
  }

  lemma DroppingEmpty(st: Relay) returns (empty: set<Sid>)
    ensures DropEmpty(st).order == Without(st.order, empty) && DropEmpty(st).sessions.Keys == st.sessions.Keys - empty
  {
    hide Without;
    empty := set sid | sid in st.sessions && st.sessions[sid].AllRolesEmpty();
  }

  lemma StepKeepsOrder(st: Relay, ev: Event)
    requires Inv(st) && Distinct(st.order)
    ensures KeepsOrder(st, Step(st, ev))
  {
    hide RegisterPeer, RegisterSpectator, RemoveSpectator, Cleanup, KeepsOrder, Inv;
    match ev
    case Announced(role, port, sid, addr, store, now) =>
      RemoveSpectatorKeeps(st, addr);
      var removed := RemoveSpectator(st, addr);
      RemovalKeepsOrder(st, addr);
      SameOrder(st, removed);
      SameOrder(st, st);
      match Accepts(role, port, sid, store) {
        case None =>
        case Some(Target(actual, Spectator, p)) => JoiningKeepsOrder(st, actual, p, addr, now);
        case Some(Target(actual, r, p)) =>
          RegisteringKeepsOrder(removed, actual, r, p, addr, now);
          SameBefore(st, removed, RegisterPeer(removed, actual, r, p, addr, now));
      }
    case CleanupPass(now, timeout, alive) => CleanupKeepsOrder(st, now, timeout, alive);
    case _ =>
      assert Step(st, ev).order == st.order && Step(st, ev).sessions.Keys == st.sessions.Keys;
      SameOrder(st, Step(st, ev));
  }

  lemma RemovalKeepsOrder(st: Relay, addr: Address)
    ensures RemoveSpectator(st, addr).order == st.order && RemoveSpectator(st, addr).sessions.Keys == st.sessions.Keys
  {
    hide RemoveTargets;
  }

  lemma SameBefore(st: Relay, removed: Relay, after: Relay)
    requires removed.order == st.order && removed.sessions.Keys == st.sessions.Keys && KeepsOrder(removed, after)
    ensures KeepsOrder(st, after)
  {
  }

  // ---------------------------------------------------------------- runs

  lemma {:induction false} AlwaysDistinct(events: seq<Event>)
    ensures Distinct(Run(events).order)
  {
    if events != [] {
      var before := events[..|events| - 1];
      AlwaysDistinct(before);
      AlwaysGrouped(before);
      hide Step, Inv;
      StepKeepsOrder(Run(before), events[|events| - 1]);
    }
  }

  lemma RunStep(events: seq<Event>, m: nat)
    requires m < |events|
    ensures Run(events[..m + 1]) == Step(Run(events[..m]), events[m])
  {
    assert events[..m + 1][..m] == events[..m];
  }

  lemma CreatedBefore(events: seq<Event>, k: nat, n: nat, s: Sid)
    requires Created(events, k, n, s)
    ensures s in Run(events[..n]).sessions
    ensures if k < n - 1 then Created(events, k, n - 1, s) && s in Run(events[..n - 1]).sessions
            else s !in Run(events[..n - 1]).sessions
  {
    hide Run;
  }

  /** In every run a session that was created before another one comes before it. */
  lemma {:induction false} OrderOfCreation(events: seq<Event>, n: nat, s: Sid, k: nat, t: Sid, l: nat)
    requires n <= |events| && Created(events, k, n, s) && Created(events, l, n, t) && k < l < n
    ensures Before(Run(events[..n]).order, s, t) && !Before(Run(events[..n]).order, t, s)
  {
    hide *;
    var m := n - 1;
    AlwaysGrouped(events[..m]);
    AlwaysDistinct(events[..m]);
    AlwaysDistinct(events[..n]);
    RunStep(events, m);
    StepKeepsOrder(Run(events[..m]), events[m]);
    CreatedBefore(events, k, n, s);
    CreatedBefore(events, l, n, t);
    if l < m {
      OrderOfCreation(events, m, s, k, t, l);
    }
    KeptBefore(Run(events[..m]), Run(events[..n]), s, t);
    OneWayOnly(Run(events[..n]).order, s, t);
  }

  lemma KeptBefore(st: Relay, after: Relay, s: Sid, t: Sid)
    requires KeepsOrder(st, after) && s in st.sessions && s in after.sessions && t in after.sessions
    requires t !in st.sessions || Before(st.order, s, t)
    ensures Before(after.order, s, t)
  {
  }

  lemma OneWayOnly(order: seq<Sid>, s: Sid, t: Sid)
    requires Distinct(order) && Before(order, s, t)
    ensures !Before(order, t, s)
  {
  }
}
