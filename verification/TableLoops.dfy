/** How the loop-free descriptions of the forwarding table compose, one iteration at a time. */
module TableLoops {
  import opened RelayTypes
  import opened RelaySpec

  type Table = map<Address, Mapping>

  // ---------------------------------------------------------------- removing targets

  lemma RemoveNothing(m: Table, streamer: Ports, gone: set<Address>)
    ensures RemoveTargets(m, streamer, {}) == m && RemoveTargets(m, map[], gone) == m
  {
    assert AddrsOf(map[]) == {};
    forall a | a in m ensures m[a].(targets := m[a].targets - {}) == m[a] {
      assert m[a].targets - {} == m[a].targets;
    }
  }

  lemma RemoveMore(m: Table, streamer: Ports, gone: set<Address>, more: set<Address>)
    ensures RemoveTargets(RemoveTargets(m, streamer, gone), streamer, more) == RemoveTargets(m, streamer, gone + more)
  {
    hide AddrsOf;
    forall a | a in m ensures m[a].targets - gone - more == m[a].targets - (gone + more) {}
  }

  /** One more port of the streamer has been visited. */
  lemma RemoveAtPort(m: Table, streamer: Ports, visited: set<PortType>, p: PortType, x: Address)
    requires p in streamer && visited <= streamer.Keys
    ensures RemoveTargets(m, Only(streamer, visited + {p}), {x}) ==
            RemoveAt(RemoveTargets(m, Only(streamer, visited), {x}), streamer[p].addr, x)
  {
    var a := streamer[p].addr;
    assert AddrsOf(Only(streamer, visited + {p})) == AddrsOf(Only(streamer, visited)) + {a} by {
      assert forall q | q in Only(streamer, visited) :: q in Only(streamer, visited + {p});
      assert p in Only(streamer, visited + {p});
    }
    hide AddrsOf;
    if a in m {
      assert m[a].targets - {x} == m[a].targets - {x} - {x};
    }
  }

  function RemoveAt(m: Table, a: Address, x: Address): Table {
    if a in m then m[a := m[a].(targets := m[a].targets - {x})] else m
  }

  function Only(ports: Ports, keep: set<PortType>): Ports {
    map p | p in ports && p in keep :: ports[p]
  }

  // ---------------------------------------------------------------- attaching spectators

  lemma AttachNothing(m: Table, s: Session, now: Time)
    ensures AttachSpectators(m, s, {}, now) == m
  {
    assert FoundTargets(s, Video, {}) == {} && FoundTargets(s, Control, {}) == {};
  }

  lemma FoundUnion(s: Session, p: PortType, first: set<Address>, second: set<Address>)
    ensures FoundTargets(s, p, first + second) == FoundTargets(s, p, first) + FoundTargets(s, p, second)
  {
    hide FindByAddress;
  }

  /** The table after attaching, key by key. */
  lemma AttachKey(m: Table, s: Session, addrs: set<Address>, now: Time, key: Address)
    requires Full(s.streamer)
    ensures var after, added := AttachSpectators(m, s, addrs, now), AddedTargets(s, key, addrs);
            && (key in after <==> key in m || added != {})
            && (key in after ==>
                  after[key] == if added == {} then m[key]
                      else Mapping((if key in m then m[key].targets else {}) + added, now))
  {
    hide FoundTargets;
  }

  lemma AddedUnion(s: Session, key: Address, first: set<Address>, second: set<Address>)
    requires Full(s.streamer)
    ensures AddedTargets(s, key, first + second) == AddedTargets(s, key, first) + AddedTargets(s, key, second)
  {
    FoundUnion(s, Video, first, second);
    FoundUnion(s, Control, first, second);
    hide FoundTargets;
  }

  function TargetsAt(m: Table, key: Address): set<Address> {
    if key in m then m[key].targets else {}
  }

  lemma AttachMoreKey(m: Table, s: Session, first: set<Address>, second: set<Address>, now: Time, key: Address)
    requires Full(s.streamer)
    ensures var twice := AttachSpectators(AttachSpectators(m, s, first, now), s, second, now);
            var together := AttachSpectators(m, s, first + second, now);
            (key in twice <==> key in together) && (key in twice ==> twice[key] == together[key])
  {
    hide AttachSpectators, AddedTargets;
    AttachKey(m, s, first, now, key);
    AttachKey(AttachSpectators(m, s, first, now), s, second, now, key);
    AttachKey(m, s, first + second, now, key);
    AddedUnion(s, key, first, second);
    var a, b := AddedTargets(s, key, first), AddedTargets(s, key, second);
    assert TargetsAt(m, key) + (a + b) == TargetsAt(m, key) + a + b;
  }

  /** Attaching in two rounds is attaching once. */
  lemma AttachMore(m: Table, s: Session, first: set<Address>, second: set<Address>, now: Time)
    ensures AttachSpectators(AttachSpectators(m, s, first, now), s, second, now) ==
              AttachSpectators(m, s, first + second, now)
  {
    if Full(s.streamer) {
      hide *;
      var twice := AttachSpectators(AttachSpectators(m, s, first, now), s, second, now);
      var together := AttachSpectators(m, s, first + second, now);
      forall key ensures key in twice <==> key in together
                 ensures key in twice ==> twice[key] == together[key]
      {
        AttachMoreKey(m, s, first, second, now, key);
      }
    }
  }

  /** One target added to one key, as the loop over the port types does it. */
  function AddTarget(m: Table, key: Address, target: Address, now: Time): Table {
    m[key := Mapping((if key in m then m[key].targets else {}) + {target}, now)]
  }

  /** What one lookup attaches: the two ports of the entry it finds, if that is complete. */
  function AttachFound(m: Table, s: Session, addr: Address, now: Time): Table {
    var found := FindByAddress(s.spectators, addr);
    if Full(s.streamer) && found.Some? && s.spectators[found.value].IsComplete() then
      var e := s.spectators[found.value];
      AddTarget(AddTarget(m, s.streamer[Video].addr, e.ports[Video].addr, now),
                s.streamer[Control].addr, e.ports[Control].addr, now)
    else m
  }

  lemma AttachOneKey(m: Table, s: Session, addr: Address, now: Time, key: Address)
    requires Full(s.streamer)
    ensures var one, found := AttachSpectators(m, s, {addr}, now), AttachFound(m, s, addr, now);
            (key in one <==> key in found) && (key in one ==> one[key] == found[key])
  {
    AttachKey(m, s, {addr}, now, key);
    FoundOne(s, Video, addr);
    FoundOne(s, Control, addr);
    hide AttachSpectators, FoundTargets, FindByAddress;
    var found := FindByAddress(s.spectators, addr);
    if found.Some? && s.spectators[found.value].IsComplete() {
      var v, c := s.spectators[found.value].ports[Video].addr, s.spectators[found.value].ports[Control].addr;
      assert TargetsAt(m, key) + ({v} + {c}) == TargetsAt(m, key) + {v} + {c};
      assert TargetsAt(m, key) + ({v} + {}) == TargetsAt(m, key) + {v};
      assert TargetsAt(m, key) + ({} + {c}) == TargetsAt(m, key) + {c};
    }
  }

  lemma AttachOne(m: Table, s: Session, addr: Address, now: Time)
    ensures AttachSpectators(m, s, {addr}, now) == AttachFound(m, s, addr, now)
  {
    if Full(s.streamer) {
      hide *;
      var one, found := AttachSpectators(m, s, {addr}, now), AttachFound(m, s, addr, now);
      forall key ensures key in one <==> key in found
                 ensures key in one ==> one[key] == found[key]
      {
        AttachOneKey(m, s, addr, now, key);
      }
    }
  }

  lemma FoundOne(s: Session, p: PortType, addr: Address)
    ensures var found := FindByAddress(s.spectators, addr);
            FoundTargets(s, p, {addr}) ==
            if found.Some? && s.spectators[found.value].IsComplete() then {s.spectators[found.value].PortAddr(p)}
                else {}
  {
    var found := FindByAddress(s.spectators, addr);
    if found.Some? && s.spectators[found.value].IsComplete() {
      assert s.spectators[found.value].PortAddr(p) in FoundTargets(s, p, {addr});
    }
  }

  // ---------------------------------------------------------------- the order of the dictionary

  lemma {:induction false} WithoutMore(order: seq<Sid>, gone: set<Sid>, more: set<Sid>)
    ensures Without(Without(order, gone), more) == Without(order, gone + more)
  {
    if order != [] {
      WithoutMore(order[1..], gone, more);
      var head := if order[0] in gone then [] else [order[0]];
      assert Without(order, gone) == head + Without(order[1..], gone);
      if head != [] {
        assert (head + Without(order[1..], gone))[1..] == Without(order[1..], gone);
      } else {
        assert head + Without(order[1..], gone) == Without(order[1..], gone);
      }
    }
  }

  /** No session is listed twice. */
  ghost predicate Distinct(order: seq<Sid>) {
    forall i, j | 0 <= i < j < |order| :: order[i] != order[j]
  }

  lemma {:induction false} WithoutDistinct(order: seq<Sid>, gone: set<Sid>)
    requires Distinct(order)
    ensures Distinct(Without(order, gone))
  {
    if order != [] {
      WithoutDistinct(order[1..], gone);
      assert order[0] !in order[1..];
      var rest := Without(order[1..], gone);
      assert order[0] !in rest;
      assert forall i | 0 <= i < |rest| :: rest[i] in rest;
    }
  }

  lemma {:induction false} WithoutNothing(order: seq<Sid>)
    ensures Without(order, {}) == order
  {
    if order != [] {
      WithoutNothing(order[1..]);
    }
  }
}
