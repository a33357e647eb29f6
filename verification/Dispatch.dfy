/**
 * Handing a message to its handlers. `handlers` is a dictionary from message class to a list,
 * so handlers of one class stay together, in the place where the class was first registered.
 */
module Dispatch {
  import opened RelayTypes

  type Cls = string
  type Handler = string

  /** One entry of the dictionary; the dictionary is the sequence of its entries, oldest first. */
  datatype Row = Row(cls: Cls, handlers: seq<Handler>)

  datatype Registration = Registration(cls: Cls, handler: Handler)

  /** `self.handlers[cls].append(handler)` */
  function Add(rows: seq<Row>, cls: Cls, handler: Handler): seq<Row> {
    if rows == [] then [Row(cls, [handler])]
    else if rows[0].cls == cls then [Row(cls, rows[0].handlers + [handler])] + rows[1..]
    else [rows[0]] + Add(rows[1..], cls, handler)
  }

  /** The handlers called for a message that is an instance of the classes in `inst`. */
  function Called(rows: seq<Row>, inst: set<Cls>): seq<Handler> {
    if rows == [] then []
    else (if rows[0].cls in inst then rows[0].handlers else []) + Called(rows[1..], inst)
  }

  function Rows(regs: seq<Registration>): seq<Row> {
    if regs == [] then []
    else Add(Rows(regs[..|regs| - 1]), regs[|regs| - 1].cls, regs[|regs| - 1].handler)
  }

  /** What the module's description promises: the order of registration. */
  function InOrder(regs: seq<Registration>, inst: set<Cls>): seq<Handler> {
    if regs == [] then []
    else
      InOrder(regs[..|regs| - 1], inst) +
      if regs[|regs| - 1].cls in inst then [regs[|regs| - 1].handler] else []
  }

  /** A class of the message gets a handler, then another class of it, then the first one again. */
  ghost predicate Interleaves(regs: seq<Registration>, inst: set<Cls>, i: nat, j: nat, k: nat) {
    && i < j < k < |regs|
    && regs[i].cls == regs[k].cls && regs[i].cls in inst
    && regs[j].cls != regs[i].cls && regs[j].cls in inst
  }

  ghost predicate Contiguous(regs: seq<Registration>, inst: set<Cls>) {
    forall i: nat, j: nat, k: nat :: !Interleaves(regs, inst, i, j, k)
  }

  ghost predicate Distinct(regs: seq<Registration>) {
    forall i, j | 0 <= i < j < |regs| :: regs[i].handler != regs[j].handler
  }

  // ---------------------------------------------------------------- the dictionary's order

  /** The position at which the class was first registered. */
  function First(regs: seq<Registration>, cls: Cls): (n: nat)
    ensures n <= |regs|
    ensures n < |regs| ==> regs[n].cls == cls
    ensures forall i | 0 <= i < n :: regs[i].cls != cls
  {
    if regs == [] then 0
    else
      var n := First(regs[..|regs| - 1], cls);
      if n < |regs| - 1 || regs[|regs| - 1].cls == cls then n else |regs|
  }

  lemma FirstOfLonger(regs: seq<Registration>, r: Registration, cls: Cls)
    ensures First(regs + [r], cls) ==
            if First(regs, cls) < |regs| || r.cls == cls then First(regs, cls) else |regs| + 1
  {
    assert (regs + [r])[..|regs|] == regs;
  }

  /** The entries are in the order of first registration. */
  ghost predicate RowsSorted(rows: seq<Row>, regs: seq<Registration>) {
    && (forall a, b | 0 <= a < b < |rows| :: First(regs, rows[a].cls) < First(regs, rows[b].cls))
    && (forall a | 0 <= a < |rows| :: First(regs, rows[a].cls) < |regs|)
  }

  ghost predicate RowsComplete(rows: seq<Row>, regs: seq<Registration>) {
    && (forall a | 0 <= a < |rows| :: rows[a].handlers != [])
    && (forall r | r in regs :: IndexOf(rows, r.cls) < |rows|)
  }

  ghost predicate RowsSound(rows: seq<Row>, regs: seq<Registration>) {
    forall a, h | 0 <= a < |rows| && h in rows[a].handlers :: HasHandler(regs, h)
  }

  ghost predicate HasHandler(regs: seq<Registration>, h: Handler) {
    exists r :: r in regs && r.handler == h
  }

  ghost predicate RowsOk(rows: seq<Row>, regs: seq<Registration>) {
    RowsSorted(rows, regs) && RowsComplete(rows, regs) && RowsSound(rows, regs)
  }

  function IndexOf(rows: seq<Row>, cls: Cls): (n: nat)
    ensures n <= |rows|
    ensures n < |rows| ==> rows[n].cls == cls
    ensures forall i | 0 <= i < n :: rows[i].cls != cls
  {
    if rows == [] then 0 else if rows[0].cls == cls then 0 else IndexOf(rows[1..], cls) + 1
  }

  lemma {:induction false} AddShape(rows: seq<Row>, cls: Cls, handler: Handler)
    ensures var n := IndexOf(rows, cls);
            Add(rows, cls, handler) ==
            if n < |rows| then rows[n := Row(cls, rows[n].handlers + [handler])] else rows + [Row(cls, [handler])]
  {
    hide Add, IndexOf;
    AddUnfolds(rows, cls, handler);
    if rows == [] {
    } else if rows[0].cls == cls {
      assert rows[0 := Row(cls, rows[0].handlers + [handler])] == [Row(cls, rows[0].handlers + [handler])] + rows[1..];
    } else {
      AddShape(rows[1..], cls, handler);
      var n := IndexOf(rows[1..], cls);
      if n < |rows| - 1 {
        var now := Row(cls, rows[n + 1].handlers + [handler]);
        assert [rows[0]] + rows[1..][n := now] == rows[n + 1 := now];
      } else {
        assert [rows[0]] + (rows[1..] + [Row(cls, [handler])]) == rows + [Row(cls, [handler])];
      }
    }
  }

  lemma AddUnfolds(rows: seq<Row>, cls: Cls, handler: Handler)
    ensures rows == [] ==> Add(rows, cls, handler) == [Row(cls, [handler])] && IndexOf(rows, cls) == 0
    ensures rows != [] && rows[0].cls == cls ==>
              Add(rows, cls, handler) == [Row(cls, rows[0].handlers + [handler])] + rows[1..] && IndexOf(rows, cls) == 0
    ensures rows != [] && rows[0].cls != cls ==>
              Add(rows, cls, handler) == [rows[0]] + Add(rows[1..], cls, handler)
                  && IndexOf(rows, cls) == IndexOf(rows[1..], cls) + 1
  {
  }

  lemma AddKeepsSorted(rows: seq<Row>, regs: seq<Registration>, r: Registration)
    requires RowsSorted(rows, regs) && RowsComplete(rows, regs)
    ensures RowsSorted(Add(rows, r.cls, r.handler), regs + [r])
  {
    hide Add, First, IndexOf, RowsComplete;
    var longer := regs + [r];
    var rows' := Add(rows, r.cls, r.handler);
    var n := IndexOf(rows, r.cls);
    AddShape(rows, r.cls, r.handler);
    assert |rows'| == (if n < |rows| then |rows| else |rows| + 1) && (n == |rows| ==> rows'[n].cls == r.cls);
    assert forall a | 0 <= a < |rows| :: rows'[a].cls == rows[a].cls;
    forall a | 0 <= a < |rows| ensures First(longer, rows'[a].cls) == First(regs, rows[a].cls) {
      FirstOfLonger(regs, r, rows[a].cls);
    }
    FirstOfLonger(regs, r, r.cls);
    if n == |rows| {
      MissingClass(rows, regs, r.cls);
    }
  }

  lemma MissingClass(rows: seq<Row>, regs: seq<Registration>, cls: Cls)
    requires RowsComplete(rows, regs) && IndexOf(rows, cls) == |rows|
    ensures First(regs, cls) == |regs|
  {
    hide IndexOf, First;
    assert forall i | 0 <= i < |regs| :: regs[i] in regs && regs[i].cls != cls;
  }

  lemma AddKeepsComplete(rows: seq<Row>, regs: seq<Registration>, r: Registration)
    requires RowsComplete(rows, regs)
    ensures RowsComplete(Add(rows, r.cls, r.handler), regs + [r])
  {
    var rows' := Add(rows, r.cls, r.handler);
    AddShape(rows, r.cls, r.handler);
    hide Add;
    forall q | q in regs + [r] ensures IndexOf(rows', q.cls) < |rows'| {
      var a := IndexOf(rows, q.cls);
      assert q != r ==> q in regs;
      assert rows'[a].cls == q.cls;
    }
  }

  lemma AddKeepsSound(rows: seq<Row>, regs: seq<Registration>, r: Registration)
    requires RowsSound(rows, regs)
    ensures RowsSound(Add(rows, r.cls, r.handler), regs + [r])
  {
    var rows' := Add(rows, r.cls, r.handler);
    AddShape(rows, r.cls, r.handler);
    hide Add, HasHandler;
    forall a, h | 0 <= a < |rows'| && h in rows'[a].handlers ensures HasHandler(regs + [r], h) {
      assert (a < |rows| && h in rows[a].handlers) || h == r.handler;
      StillHasHandler(regs, r, h);
    }
  }

  lemma StillHasHandler(regs: seq<Registration>, r: Registration, h: Handler)
    ensures HasHandler(regs, h) || h == r.handler ==> HasHandler(regs + [r], h)
  {
    assert r in regs + [r];
    if q :| q in regs && q.handler == h {
      assert q in regs + [r];
    }
  }

  lemma {:induction false} RowsAreOk(regs: seq<Registration>)
    ensures RowsOk(Rows(regs), regs)
  {
    if regs != [] {
      var before := regs[..|regs| - 1];
      RowsAreOk(before);
      var r := regs[|regs| - 1];
      assert before + [r] == regs;
      hide RowsSorted, RowsComplete, RowsSound;
      AddKeepsSorted(Rows(before), before, r);
      AddKeepsComplete(Rows(before), before, r);
      AddKeepsSound(Rows(before), before, r);
    }
  }

  // ---------------------------------------------------------------- which order handlers run in

  lemma {:induction false} CalledOfParts(a: seq<Row>, b: seq<Row>, inst: set<Cls>)
    ensures Called(a + b, inst) == Called(a, inst) + Called(b, inst)
  {
    if a == [] {
      assert a + b == b;
    } else {
      assert (a + b)[1..] == a[1..] + b;
      CalledOfParts(a[1..], b, inst);
    }
  }

  /** The place behind the entry of the class. */
  function Cut(rows: seq<Row>, cls: Cls): (n: nat)
    ensures n <= |rows|
  {
    if IndexOf(rows, cls) < |rows| then IndexOf(rows, cls) + 1 else |rows|
  }

  /** The new handler runs after those of its class, before those of classes registered later. */
  lemma CalledAfterAdd(rows: seq<Row>, cls: Cls, handler: Handler, inst: set<Cls>)
    ensures var n := Cut(rows, cls);
            && Called(rows, inst) == Called(rows[..n], inst) + Called(rows[n..], inst)
            && Called(Add(rows, cls, handler), inst) ==
               Called(rows[..n], inst) + (if cls in inst then [handler] else []) + Called(rows[n..], inst)
  {
    hide Add, IndexOf, Called;
    var n := IndexOf(rows, cls);
    AddShape(rows, cls, handler);
    if n < |rows| {
      var was, now := rows[n], Row(cls, rows[n].handlers + [handler]);
      OneRowChanged(rows[..n], was, now, rows[n + 1..], handler, inst);
      assert rows == rows[..n] + [was] + rows[n + 1..] && rows[..n + 1] == rows[..n] + [was];
      assert rows[n := now] == rows[..n] + [now] + rows[n + 1..];
      CalledOfParts(rows[..n] + [was], rows[n + 1..], inst);
    } else {
      assert rows[..n] == rows && rows[n..] == [];
      CalledOfParts(rows, [Row(cls, [handler])], inst);
      CalledOfOne(Row(cls, [handler]), inst);
    }
  }

  lemma OneRowChanged(a: seq<Row>, was: Row, now: Row, b: seq<Row>, handler: Handler, inst: set<Cls>)
    requires now == Row(was.cls, was.handlers + [handler])
    ensures Called(a + [now] + b, inst) ==
            Called(a + [was], inst) + (if was.cls in inst then [handler] else []) + Called(b, inst)
  {
    hide Called;
    CalledOfParts(a + [now], b, inst);
    CalledOfParts(a, [was], inst);
    CalledOfParts(a, [now], inst);
    CalledOfOne(was, inst);
    CalledOfOne(now, inst);
  }

  lemma CalledOfOne(row: Row, inst: set<Cls>)
    ensures Called([row], inst) == if row.cls in inst then row.handlers else []
    ensures Called([], inst) == []
  {
    assert [row][1..] == [];
  }

  lemma {:induction false} CalledSome(rows: seq<Row>, inst: set<Cls>)
    requires forall a | 0 <= a < |rows| :: rows[a].handlers != []
    ensures Called(rows, inst) != [] <==> exists a :: 0 <= a < |rows| && rows[a].cls in inst
    ensures forall h | h in Called(rows, inst) :: exists a :: 0 <= a < |rows| && h in rows[a].handlers
  {
    if rows != [] {
      CalledSome(rows[1..], inst);
      if a :| 0 <= a < |rows| && rows[a].cls in inst {
        assert a == 0 || rows[1..][a - 1].cls in inst;
      }
      forall h | h in Called(rows, inst) ensures exists a :: 0 <= a < |rows| && h in rows[a].handlers {
        if h !in rows[0].handlers {
          var a :| 0 <= a < |rows[1..]| && h in rows[1..][a].handlers;
          assert h in rows[a + 1].handlers;
        }
      }
    }
  }

  /** A class of the message stands behind that of `r`: it was first registered in between. */
  lemma LaterClassBreaks(rows: seq<Row>, regs: seq<Registration>, r: Registration, inst: set<Cls>, b: nat)
    requires RowsSorted(rows, regs) && r.cls in inst
    requires IndexOf(rows, r.cls) < b < |rows| && rows[b].cls in inst
    ensures !Contiguous(regs + [r], inst)
  {
    var a := IndexOf(rows, r.cls);
    var i, j := First(regs, rows[a].cls), First(regs, rows[b].cls);
    assert Interleaves(regs + [r], inst, i, j, |regs|);
  }

  /** What follows the class of the last entry that concerns the message is of that class. */
  lemma AfterLastClass(rows: seq<Row>, regs: seq<Registration>, cls: Cls, inst: set<Cls>, i: nat, j: nat)
    requires RowsSorted(rows, regs) && RowsComplete(rows, regs) && Contiguous(regs, inst)
    requires i < j < |regs| && regs[i].cls == cls && cls in inst && regs[j].cls in inst
    requires forall b | IndexOf(rows, cls) < b < |rows| :: rows[b].cls !in inst
    ensures regs[j].cls == cls
  {
    assert regs[i] in regs && regs[j] in regs;
    var a, b := IndexOf(rows, cls), IndexOf(rows, regs[j].cls);
    var f := First(regs, rows[b].cls);
    assert f <= First(regs, rows[a].cls) <= i;
    assert !Interleaves(regs, inst, f, i, j);
  }

  lemma NoLaterClassKeeps(rows: seq<Row>, regs: seq<Registration>, r: Registration, inst: set<Cls>)
    requires RowsSorted(rows, regs) && RowsComplete(rows, regs) && Contiguous(regs, inst)
    requires r.cls in inst ==> forall b | IndexOf(rows, r.cls) < b < |rows| :: rows[b].cls !in inst
    ensures Contiguous(regs + [r], inst)
  {
    hide RowsSorted, RowsComplete;
    forall i: nat, j: nat, k: nat ensures !Interleaves(regs + [r], inst, i, j, k) {
      assert !Interleaves(regs, inst, i, j, k);
      if i < j < |regs| && regs[i].cls == r.cls && r.cls in inst && regs[j].cls in inst {
        AfterLastClass(rows, regs, r.cls, inst, i, j);
      }
    }
  }

  lemma ShorterContiguous(regs: seq<Registration>, r: Registration, inst: set<Cls>)
    requires Contiguous(regs + [r], inst)
    ensures Contiguous(regs, inst)
  {
    forall i: nat, j: nat, k: nat ensures !Interleaves(regs, inst, i, j, k) {
      assert !Interleaves(regs + [r], inst, i, j, k);
    }
  }

  /** With a later class of the message in the dictionary, the new handler does not come last. */
  lemma OrderBreaks(rows: seq<Row>, regs: seq<Registration>, r: Registration, inst: set<Cls>)
    requires RowsOk(rows, regs) && r.cls in inst && Called(rows[Cut(rows, r.cls)..], inst) != []
    requires !HasHandler(regs, r.handler)
    ensures !Contiguous(regs + [r], inst)
    ensures Called(Add(rows, r.cls, r.handler), inst) != InOrder(regs, inst) + [r.handler]
  {
    hide Contiguous, Called, Add, RowsSorted;
    var n := Cut(rows, r.cls);
    var rest := Called(rows[n..], inst);
    CalledAfterAdd(rows, r.cls, r.handler, inst);
    CalledSome(rows[n..], inst);
    var a :| 0 <= a < |rows[n..]| && rows[n..][a].cls in inst;
    LaterClassBreaks(rows, regs, r, inst, a + n);
    var last := rest[|rest| - 1];
    assert last in rest;
    var c :| 0 <= c < |rows[n..]| && last in rows[n..][c].handlers;
    assert last in rows[n + c].handlers;
    DifferentLast(Called(rows[..n], inst) + [r.handler] + rest, InOrder(regs, inst) + [r.handler]);
  }

  lemma OrderKept(rows: seq<Row>, regs: seq<Registration>, r: Registration, inst: set<Cls>)
    requires RowsOk(rows, regs) && (r.cls !in inst || Called(rows[Cut(rows, r.cls)..], inst) == [])
    ensures Contiguous(regs + [r], inst) <==> Contiguous(regs, inst)
    ensures Called(Add(rows, r.cls, r.handler), inst) == Called(rows, inst) + if r.cls in inst then [r.handler] else []
  {
    hide Called, Contiguous, Add, RowsSorted, RowsSound, IndexOf;
    var n := Cut(rows, r.cls);
    CalledAfterAdd(rows, r.cls, r.handler, inst);
    if r.cls in inst {
      NothingBehind(rows, n, inst);
    }
    if Contiguous(regs, inst) {
      NoLaterClassKeeps(rows, regs, r, inst);
    }
    if Contiguous(regs + [r], inst) {
      ShorterContiguous(regs, r, inst);
    }
  }

  lemma NothingBehind(rows: seq<Row>, n: nat, inst: set<Cls>)
    requires n <= |rows| && Called(rows[n..], inst) == []
    requires forall a | 0 <= a < |rows| :: rows[a].handlers != []
    ensures forall b | n <= b < |rows| :: rows[b].cls !in inst
  {
    hide Called;
    CalledSome(rows[n..], inst);
    assert forall b | n <= b < |rows| :: rows[n..][b - n] == rows[b];
  }

  /**
   * Handlers run in the order of registration if and only if, among the classes the message
   * belongs to, none is registered again after another one.
   */
  lemma {:induction false} OrderKeptIff(regs: seq<Registration>, inst: set<Cls>)
    requires Distinct(regs)
    ensures Called(Rows(regs), inst) == InOrder(regs, inst) <==> Contiguous(regs, inst)
  {
    hide *;
    if regs == [] {
      NothingRegistered(inst);
    } else {
      var before, r := regs[..|regs| - 1], regs[|regs| - 1];
      var rows := Rows(before);
      assert before + [r] == regs;
      ShorterDistinct(before, r);
      OrderKeptIff(before, inst);
      RowsAreOk(before);
      NewHandler(before, r);
      LastRegistration(regs, inst);
      var tail := if r.cls in inst then [r.handler] else [];
      if r.cls in inst && Called(rows[Cut(rows, r.cls)..], inst) != [] {
        OrderBreaks(rows, before, r, inst);
      } else {
        OrderKept(rows, before, r, inst);
        SameTail(Called(rows, inst), InOrder(before, inst), tail);
      }
    }
  }

  lemma NothingRegistered(inst: set<Cls>)
    ensures Called(Rows([]), inst) == InOrder([], inst) && Contiguous([], inst)
  {
  }

  lemma LastRegistration(regs: seq<Registration>, inst: set<Cls>)
    requires regs != []
    ensures var before, r := regs[..|regs| - 1], regs[|regs| - 1];
            && Rows(regs) == Add(Rows(before), r.cls, r.handler)
            && InOrder(regs, inst) == InOrder(before, inst) + if r.cls in inst then [r.handler] else []
  {
  }

  lemma ShorterDistinct(before: seq<Registration>, r: Registration)
    requires Distinct(before + [r])
    ensures Distinct(before)
  {
    assert forall i | 0 <= i < |before| :: (before + [r])[i] == before[i];
  }

  lemma NewHandler(before: seq<Registration>, r: Registration)
    requires Distinct(before + [r])
    ensures !HasHandler(before, r.handler)
  {
    var longer := before + [r];
    assert longer[|before|] == r;
    assert forall i | 0 <= i < |before| :: longer[i] == before[i];
  }

  lemma DifferentLast(a: seq<Handler>, b: seq<Handler>)
    requires a != [] && b != [] && a[|a| - 1] != b[|b| - 1]
    ensures a != b
  {
  }

  lemma SameTail(a: seq<Handler>, b: seq<Handler>, tail: seq<Handler>)
    ensures a + tail == b + tail <==> a == b
  {
    if a + tail == b + tail {
      assert a == (a + tail)[..|a|] && b == (b + tail)[..|b|];
    }
  }

  /** The order of registration is not kept in general. */
  lemma ReRegistrationReorders()
    ensures var regs := [Registration("Message", "first"), Registration("Command", "second"),
              Registration("Message", "third")];
            && InOrder(regs, {"Message", "Command"}) == ["first", "second", "third"]
            && Called(Rows(regs), {"Message", "Command"}) == ["first", "third", "second"]
  {
    var a, b, c := Registration("Message", "first"), Registration("Command", "second"),
        Registration("Message", "third");
    var inst := {"Message", "Command"};
    assert [a, b, c][..2] == [a, b] && [a, b][..1] == [a] && [a][..0] == [];
    LastRegistration([a], inst);
    LastRegistration([a, b], inst);
    LastRegistration([a, b, c], inst);
    var one, two := Row("Message", ["first"]), Row("Command", ["second"]);
    AddShape([one], "Command", "second");
    AddShape([one, two], "Message", "third");
    assert Rows([a, b]) == [one, two];
    assert ["first"] + ["third"] == ["first", "third"];
    var both := Row("Message", ["first", "third"]);
    assert Rows([a, b, c]) == [both, two];
    assert [both, two][1..] == [two] && [two][1..] == [];
    assert Called([two], inst) == ["second"] + [];
  }

  // ---------------------------------------------------------------- the objects

  class MessageHandler {
    var handlers: seq<Row>

    constructor ()
      ensures handlers == []
    {
      handlers := [];
    }

    method AddHandler(cls: Cls, handler: Handler)
      modifies this
      ensures handlers == Add(old(handlers), cls, handler)
    {
      AddShape(handlers, cls, handler);
      var n := 0;
      while n < |handlers| && handlers[n].cls != cls
        invariant 0 <= n <= |handlers| && forall i | 0 <= i < n :: handlers[i].cls != cls
      {
        n := n + 1;
      }
      if n < |handlers| {
        handlers := handlers[n := Row(cls, handlers[n].handlers + [handler])];
      } else {
        handlers := handlers + [Row(cls, [handler])];
      }
    }

    /** Call the handlers of one class in turn. */
    method CallAll(before: seq<Handler>, handlers: seq<Handler>, raises: set<Handler>)
      returns (called: seq<Handler>, raised: bool)
      requires forall h | h in before :: h !in raises
      ensures before <= called <= before + handlers
      ensures !raised ==> called == before + handlers && forall h | h in called :: h !in raises
      ensures raised ==> called != [] && called[|called| - 1] in raises && forall h | h in called[..|called| - 1] ::
                h !in raises
    {
      called := before;
      for k := 0 to |handlers|
        invariant called == before + handlers[..k]
        invariant forall h | h in called :: h !in raises
      {
        called := called + [handlers[k]];
        if handlers[k] in raises {
          return called, true;
        }
      }
      return called, false;
    }

    /**
     * `handler`: call every handler of every class the message is an instance of. A handler
     * that raises ends the walk.
     */
    method Handle(inst: set<Cls>, raises: set<Handler>) returns (called: seq<Handler>, raised: bool)
      ensures called <= Called(handlers, inst)
      ensures !raised ==> called == Called(handlers, inst) && forall h | h in called :: h !in raises
      ensures raised ==> called != [] && called[|called| - 1] in raises && forall h | h in called[..|called| - 1] ::
                h !in raises
    {
      called := [];
      for n := 0 to |handlers|
        invariant called == Called(handlers[..n], inst)
        invariant forall h | h in called :: h !in raises
      {
        var row := handlers[n];
        assert handlers[..n + 1] == handlers[..n] + [row];
        assert handlers == handlers[..n + 1] + handlers[n + 1..];
        CalledOfParts(handlers[..n], [row], inst);
        CalledOfParts(handlers[..n + 1], handlers[n + 1..], inst);
        CalledOfOne(row, inst);
        hide Called;
        if row.cls in inst {
          called, raised := CallAll(called, row.handlers, raises);
          if raised {
            return;
          }
        }
      }
      assert handlers[..|handlers|] == handlers;
      return called, false;
    }
  }

  const HISTORY_LENGTH := 50

  /** `history[-50:]` */
  function Latest<T>(history: seq<T>): (kept: seq<T>)
    ensures |kept| == if |history| < 50 then |history| else 50
    ensures kept == history[|history| - |kept|..]
  {
    if |history| <= HISTORY_LENGTH then history else history[|history| - HISTORY_LENGTH..]
  }

  /** Trimming after every message loses nothing that trimming once would keep. */
  lemma TrimmingComposes<T>(all: seq<T>, x: T)
    ensures Latest(Latest(all) + [x]) == Latest(all + [x])
  {
  }

  /** The part of `Base` that hands a message to its external subscribers. */
  class Subscriptions {
    const subscribers: MessageHandler
    var messageHistory: seq<Address>
    /** Every sender ever seen; the history is the end of it. */
    ghost var senders: seq<Address>

    ghost predicate Valid()
      reads this
    {
      messageHistory == Latest(senders)
    }

    constructor ()
      ensures Valid() && fresh(subscribers) && subscribers.handlers == [] && senders == []
    {
      subscribers := new MessageHandler();
      messageHistory, senders := [], [];
    }

    /** `get_last_address`: where the newest message came from. */
    method LastAddress() returns (addr: Option<Address>)
      requires Valid()
      ensures addr == if senders == [] then None else Some(senders[|senders| - 1])
    {
      if |messageHistory| > 0 {
        return Some(messageHistory[|messageHistory| - 1]);
      }
      return None;
    }

    /** `all_handler`: remember the sender, then call the subscribers. */
    method AllHandler(inst: set<Cls>, addr: Address, raises: set<Handler>) returns (called: seq<Handler>, raised: bool)
      requires Valid()
      modifies this
      ensures Valid() && senders == old(senders) + [addr]
      ensures called <= Called(subscribers.handlers, inst)
      ensures !raised ==> called == Called(subscribers.handlers, inst) && forall h | h in called :: h !in raises
      ensures raised ==> called != [] && called[|called| - 1] in raises
    {
      TrimmingComposes(senders, addr);
      senders := senders + [addr];
      messageHistory := messageHistory + [addr];
      if |messageHistory| > HISTORY_LENGTH {
        messageHistory := messageHistory[|messageHistory| - HISTORY_LENGTH..];
      }
      called, raised := subscribers.Handle(inst, raises);
    }
  }
}
