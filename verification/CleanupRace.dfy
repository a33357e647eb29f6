/**
 * Packets that arrive during a cleanup pass. Its first phase tests every role and later pops the
 * mappings of those it found idle; the table is unlocked in between, and a packet that arrives
 * there refreshes a mapping that goes all the same.
 */
module CleanupRace {
  import opened RelayTypes
  import opened RelaySpec
  import opened RelayCleanup

  /** What happens to the table, one locked region each: a packet, the test of a role, the removal of its mappings */
  datatype Act = Touch(addr: Address, time: Time) | Test(sid: Sid, role: Role) | Pop(sid: Sid, role: Role)

  /** The table, and the roles found idle so far */
  datatype Phase = Phase(table: Table, doomed: set<(Sid, Role)>)

  /** The pass tests all roles, then pops; packets may come at any point. `m` is where the first pop may come. */
  predicate IsPass(sessions: Sessions, acts: seq<Act>, m: nat) {
    && m <= |acts|
    && (forall k | 0 <= k < |acts| :: !acts[k].Touch? ==> acts[k].sid in sessions && acts[k].role != Spectator)
    && (forall k | 0 <= k < m :: !acts[k].Pop?)
    && (forall k | m <= k < |acts| :: !acts[k].Test?)
    && (forall sid, role | sid in sessions && role != Spectator ::
        Test(sid, role) in acts[..m] && Pop(sid, role) in acts[m..])
  }

  /** The session lock is held throughout, so the sessions do not change. */
  ghost function Do(sessions: Sessions, p: Phase, act: Act, now: Time, timeout: Time): Phase {
    match act
    case Touch(addr, time) =>
      if addr in p.table then p.(table := p.table[addr := p.table[addr].(timestamp := time)]) else p
    case Test(sid, role) =>
      if sid in sessions && Idle(p.table, sessions[sid], role, now, timeout)
          then p.(doomed := p.doomed + {(sid, role)}) else p
    case Pop(sid, role) =>
      if sid in sessions && (sid, role) in p.doomed then p.(table := p.table - AddrsOf(PortsOf(sessions[sid], role)))
          else p
  }

  ghost function After(sessions: Sessions, table: Table, acts: seq<Act>, now: Time, timeout: Time): Phase {
    if acts == [] then Phase(table, {})
    else Do(sessions, After(sessions, table, acts[..|acts| - 1], now, timeout), acts[|acts| - 1], now, timeout)
  }

  /** When packets last came for `a`, or what the table says if none did */
  function LastTouch(acts: seq<Act>, a: Address, before: Time): Time {
    if acts == [] then before
    else
      var last := acts[|acts| - 1];
      if last.Touch? && last.addr == a then last.time else LastTouch(acts[..|acts| - 1], a, before)
  }

  /** Step `k` of the pass finds the role idle. */
  ghost predicate FoundIdle(sessions: Sessions, table: Table, acts: seq<Act>, k: nat, sid: Sid, role: Role, now: Time,
      timeout: Time)
  {
    && k < |acts| && acts[k] == Test(sid, role) && sid in sessions
    && Idle(After(sessions, table, acts[..k], now, timeout).table, sessions[sid], role, now, timeout)
  }

  lemma Prefix(acts: seq<Act>, n: nat, k: nat)
    requires k <= n <= |acts|
    ensures acts[..n][..k] == acts[..k]
  {
  }

  // ---------------------------------------------------------------- the two halves of the pass

  /** While roles are tested the table keeps its keys, and those found idle are remembered. */
  lemma {:induction false} Tested(sessions: Sessions, table: Table, acts: seq<Act>, n: nat, now: Time, timeout: Time)
    requires n <= |acts| && forall k | 0 <= k < n :: !acts[k].Pop?
    ensures var p := After(sessions, table, acts[..n], now, timeout);
            && p.table.Keys == table.Keys
            && forall sid, role :: (sid, role) in p.doomed <==>
                 exists k | 0 <= k < n :: FoundIdle(sessions, table, acts, k, sid, role, now, timeout)
  {
    hide Idle;
    if n > 0 {
      Tested(sessions, table, acts, n - 1, now, timeout);
      Prefix(acts, n, n - 1);
      var before := After(sessions, table, acts[..n - 1], now, timeout);
      assert After(sessions, table, acts[..n], now, timeout) == Do(sessions, before, acts[n - 1], now, timeout);
      hide After;
      forall sid, role
        ensures (sid, role) in Do(sessions, before, acts[n - 1], now, timeout).doomed <==>
                  (sid, role) in before.doomed || FoundIdle(sessions, table, acts, n - 1, sid, role, now, timeout)
      {
      }
      hide FoundIdle;
    }
  }

  /** A removal among the steps from `m` to `n` takes `a` away. */
  ghost predicate Popped(sessions: Sessions, doomed: set<(Sid, Role)>, acts: seq<Act>, m: nat, n: nat, a: Address) {
    exists k | m <= k < n <= |acts| :: Takes(sessions, doomed, acts[k], a)
  }

  predicate Takes(sessions: Sessions, doomed: set<(Sid, Role)>, act: Act, a: Address) {
    act.Pop? && act.sid in sessions && (act.sid, act.role) in doomed
        && a in AddrsOf(PortsOf(sessions[act.sid], act.role))
  }

  /** While mappings are popped, exactly those of the remembered roles go. */
  lemma {:induction false} PoppedSoFar(sessions: Sessions, table: Table, acts: seq<Act>, m: nat, n: nat, a: Address,
      now: Time, timeout: Time)
    requires m <= n <= |acts| && forall k | m <= k < |acts| :: !acts[k].Test?
    ensures var p, q := After(sessions, table, acts[..m], now, timeout),
              After(sessions, table, acts[..n], now, timeout);
            && q.doomed == p.doomed
            && (a in q.table <==> a in p.table && !Popped(sessions, p.doomed, acts, m, n, a))
  {
    if n > m {
      PoppedSoFar(sessions, table, acts, m, n - 1, a, now, timeout);
      Prefix(acts, n, n - 1);
      var p, before := After(sessions, table, acts[..m], now, timeout),
          After(sessions, table, acts[..n - 1], now, timeout);
      assert After(sessions, table, acts[..n], now, timeout) == Do(sessions, before, acts[n - 1], now, timeout);
      hide After, AddrsOf, PortsOf;
      assert a in Do(sessions, before, acts[n - 1], now, timeout).table <==>
          a in before.table && !Takes(sessions, p.doomed, acts[n - 1], a);
      hide Do, Takes;
    }
  }

  // ---------------------------------------------------------------- which mappings go

  /**
   * A mapping is lost exactly when one of the roles it belongs to was idle at the moment of its
   * test. Packets that come before the test can save it, packets that come after it cannot.
   */
  lemma LostIff(sessions: Sessions, table: Table, acts: seq<Act>, m: nat, a: Address, now: Time, timeout: Time)
    requires IsPass(sessions, acts, m)
    ensures a in After(sessions, table, acts, now, timeout).table <==>
              a in table && !exists k, sid, role | 0 <= k < m ::
                FoundIdle(sessions, table, acts, k, sid, role, now, timeout)
                    && a in AddrsOf(PortsOf(sessions[sid], role))
  {
    hide After, Idle, AddrsOf, PortsOf;
    assert acts[..|acts|] == acts;
    Tested(sessions, table, acts, m, now, timeout);
    PoppedSoFar(sessions, table, acts, m, |acts|, a, now, timeout);
    var doomed := After(sessions, table, acts[..m], now, timeout).doomed;
    forall sid, role | sid in sessions && (sid, role) in doomed && a in AddrsOf(PortsOf(sessions[sid], role))
      ensures Popped(sessions, doomed, acts, m, |acts|, a)
    {
      var k :| 0 <= k < m && FoundIdle(sessions, table, acts, k, sid, role, now, timeout);
      TestedRole(sessions, table, acts, m, k, sid, role, now, timeout);
      var j :| 0 <= j < |acts[m..]| && acts[m..][j] == Pop(sid, role);
      assert Takes(sessions, doomed, acts[m + j], a);
    }
  }

  lemma TestedRole(sessions: Sessions, table: Table, acts: seq<Act>, m: nat, k: nat, sid: Sid, role: Role, now: Time,
      timeout: Time)
    requires IsPass(sessions, acts, m) && FoundIdle(sessions, table, acts, k, sid, role, now, timeout)
    ensures Pop(sid, role) in acts[m..] && sid in sessions
  {
    hide After, Idle;
  }

  /** The packet that comes right after the test: the role is not idle any more, and its mapping goes. */
  function TooLate(sid: Sid, a: Address, now: Time): seq<Act> {
    [Test(sid, Streamer), Test(sid, Viewer), Touch(a, now), Pop(sid, Streamer), Pop(sid, Viewer)]
  }

  /** It can happen to every idle streamer. */
  lemma PacketTooLate(sid: Sid, s: Session, table: Table, a: Address, now: Time, timeout: Time)
    requires Idle(table, s, Streamer, now, timeout) && a in AddrsOf(s.streamer) && a in table && timeout > 0.0
    ensures var sessions, acts := map[sid := s], TooLate(sid, a, now);
            && IsPass(sessions, acts, 2)
            && !Idle(After(sessions, table, acts[..3], now, timeout).table, s, Streamer, now, timeout)
            && a in After(sessions, table, acts[..3], now, timeout).table
            && a !in After(sessions, table, acts, now, timeout).table
  {
    var sessions, acts := map[sid := s], TooLate(sid, a, now);
    TooLateIsPass(sid, s, a, now);
    assert acts[..0] == [] && After(sessions, table, [], now, timeout).table == table;
    assert FoundIdle(sessions, table, acts, 0, sid, Streamer, now, timeout);
    assert PortsOf(s, Streamer) == s.streamer;
    LostIff(sessions, table, acts, 2, a, now, timeout);
    hide IsPass;
    Tested(sessions, table, acts, 3, now, timeout);
    Prefix(acts, 3, 2);
    Tested(sessions, table, acts, 2, now, timeout);
    hide Idle;
    TouchedNow(sessions, table, acts[..2], s, a, now, timeout);
    assert acts[..3] == acts[..2] + [Touch(a, now)];
  }

  lemma TouchedNow(sessions: Sessions, table: Table, acts: seq<Act>, s: Session, a: Address, now: Time, timeout: Time)
    requires a in After(sessions, table, acts, now, timeout).table && a in AddrsOf(s.streamer) && timeout > 0.0
    ensures !Idle(After(sessions, table, acts + [Touch(a, now)], now, timeout).table, s, Streamer, now, timeout)
  {
    var more := acts + [Touch(a, now)];
    assert more[..|acts|] == acts;
    var after := After(sessions, table, more, now, timeout).table;
    assert a in after && after[a].timestamp == now;
    var p :| p in s.streamer && s.streamer[p].addr == a;
  }

  lemma TooLateIsPass(sid: Sid, s: Session, a: Address, now: Time)
    ensures IsPass(map[sid := s], TooLate(sid, a, now), 2)
  {
    var acts := TooLate(sid, a, now);
    assert acts[..2] == [Test(sid, Streamer), Test(sid, Viewer)];
    assert acts[2..] == [Touch(a, now), Pop(sid, Streamer), Pop(sid, Viewer)];
    forall role: Role | role != Spectator ensures Test(sid, role) in acts[..2] && Pop(sid, role) in acts[2..] {
      if role == Streamer {
        assert acts[..2][0] == Test(sid, role) && acts[2..][1] == Pop(sid, role);
      } else {
        assert acts[..2][1] == Test(sid, role) && acts[2..][2] == Pop(sid, role);
      }
    }
  }

  /** What is left has the time of its last packet. */
  lemma {:induction false} TimeOfLastPacket(sessions: Sessions, table: Table, acts: seq<Act>, a: Address, now: Time,
      timeout: Time)
    requires a in After(sessions, table, acts, now, timeout).table
    ensures a in table
    ensures After(sessions, table, acts, now, timeout).table[a] ==
              table[a].(timestamp := LastTouch(acts, a, table[a].timestamp))
  {
    hide Idle, AddrsOf, PortsOf;
    if acts != [] {
      TimeOfLastPacket(sessions, table, acts[..|acts| - 1], a, now, timeout);
    }
  }

  /** A mapping survives if at each test of a role it belongs to its last packet was recent. */
  lemma RecentAtTheTest(sessions: Sessions, table: Table, acts: seq<Act>, m: nat, a: Address, now: Time, timeout: Time)
    requires IsPass(sessions, acts, m) && a in table
    requires forall k | 0 <= k < m && acts[k].Test? && a in AddrsOf(PortsOf(sessions[acts[k].sid], acts[k].role)) ::
               now - LastTouch(acts[..k], a, table[a].timestamp) < timeout
    ensures a in After(sessions, table, acts, now, timeout).table
    ensures After(sessions, table, acts, now, timeout).table[a].timestamp == LastTouch(acts, a, table[a].timestamp)
  {
    LostIff(sessions, table, acts, m, a, now, timeout);
    forall k, sid, role | 0 <= k < m && FoundIdle(sessions, table, acts, k, sid, role, now, timeout)
      ensures a !in AddrsOf(PortsOf(sessions[sid], role))
    {
      if a in AddrsOf(PortsOf(sessions[sid], role)) {
        Tested(sessions, table, acts, k, now, timeout);
        TimeOfLastPacket(sessions, table, acts[..k], a, now, timeout);
        assert false;
      }
    }
    TimeOfLastPacket(sessions, table, acts, a, now, timeout);
  }

  /** Without packets the pass is the atomic one. */
  lemma QuietPassIsAtomic(st: Relay, acts: seq<Act>, m: nat, now: Time, timeout: Time)
    requires IsPass(st.sessions, acts, m) && forall k | 0 <= k < |acts| :: !acts[k].Touch?
    ensures After(st.sessions, st.mappings, acts, now, timeout).table == ExpireRoles(st, now, timeout).mappings
  {
    var table, atomic := After(st.sessions, st.mappings, acts, now, timeout).table,
        ExpireRoles(st, now, timeout).mappings;
    forall a
      ensures a in table <==> a in atomic
      ensures a in table && a in atomic ==> table[a] == atomic[a]
    {
      LostIff(st.sessions, st.mappings, acts, m, a, now, timeout);
      ExpiredMappings(st, now, timeout, a);
      QuietTests(st, acts, m, a, now, timeout);
      if a in table {
        TimeOfLastPacket(st.sessions, st.mappings, acts, a, now, timeout);
        NoTouch(acts, a, st.mappings[a].timestamp);
      }
      hide *;
    }
    hide *;
    assert table.Keys == atomic.Keys;
  }

  lemma {:induction false} NoTouch(acts: seq<Act>, a: Address, before: Time)
    requires forall k | 0 <= k < |acts| :: !acts[k].Touch?
    ensures LastTouch(acts, a, before) == before
  {
    if acts != [] {
      NoTouch(acts[..|acts| - 1], a, before);
    }
  }

  lemma {:induction false} QuietTable(sessions: Sessions, table: Table, acts: seq<Act>, k: nat, now: Time,
      timeout: Time)
    requires k <= |acts| && forall j | 0 <= j < k :: acts[j].Test?
    ensures After(sessions, table, acts[..k], now, timeout).table == table
  {
    if k > 0 {
      QuietTable(sessions, table, acts, k - 1, now, timeout);
      Prefix(acts, k, k - 1);
    }
  }

  lemma QuietTests(st: Relay, acts: seq<Act>, m: nat, a: Address, now: Time, timeout: Time)
    requires IsPass(st.sessions, acts, m) && forall k | 0 <= k < |acts| :: !acts[k].Touch?
    ensures (exists k, sid, role | 0 <= k < m ::
               FoundIdle(st.sessions, st.mappings, acts, k, sid, role, now, timeout)
                   && a in AddrsOf(PortsOf(st.sessions[sid], role)))
            <==> Expires(st.mappings, st.sessions, a, now, timeout)
  {
    hide Idle, After, AddrsOf, PortsOf;
    forall k | 0 <= k < m ensures After(st.sessions, st.mappings, acts[..k], now, timeout).table == st.mappings {
      QuietTable(st.sessions, st.mappings, acts, k, now, timeout);
    }
    if Expires(st.mappings, st.sessions, a, now, timeout) {
      var sid, role :| sid in st.sessions && Idle(st.mappings, st.sessions[sid], role, now, timeout)
          && a in AddrsOf(PortsOf(st.sessions[sid], role));
      SpectatorsHaveNoPorts(st.mappings, st.sessions[sid], now, timeout);
      var k :| 0 <= k < |acts[..m]| && acts[..m][k] == Test(sid, role);
      assert FoundIdle(st.sessions, st.mappings, acts, k, sid, role, now, timeout);
    }
  }

  lemma SpectatorsHaveNoPorts(table: Table, s: Session, now: Time, timeout: Time)
    ensures !Idle(table, s, Spectator, now, timeout)
  {
  }
}
