/** The lines of a message being read or written: a doubly linked list with a moving cursor
    (lib/msgtext.c). */
module MsgText {
  import opened Seqs

  // ----- The list as a sequence with a cursor -----

  function PutIn<T>(s: seq<T>, k: nat, x: T): seq<T>
    requires k <= |s|
  {
    s[..k] + [x] + s[k..]
  }

  function TakeOut<T>(s: seq<T>, k: nat): seq<T>
    requires k < |s|
  {
    s[..k] + s[k + 1..]
  }

  /** `at` is the line under the cursor; it is 0 when there are no lines. */
  datatype Text = Text(lines: seq<string>, at: nat)

  predicate Proper(t: Text) {
    if t.lines == [] then t.at == 0 else t.at < |t.lines|
  }

  /** Add: behind the last line, wherever the cursor is. */
  function Added(t: Text, line: string): Text {
    Text(t.lines + [line], |t.lines|)
  }

  /** Insert: behind the line under the cursor. */
  function Inserted(t: Text, line: string): Text
    requires Proper(t)
  {
    if t.lines == [] then Text([line], 0)
    else Text(PutIn(t.lines, t.at + 1, line), t.at + 1)
  }

  /** Remove: the cursor goes to the next line, or else to the one before. */
  function Removed(t: Text): Text
    requires Proper(t)
  {
    if t.lines == [] then t
    else
      var lines := TakeOut(t.lines, t.at);
      Text(lines, if t.at < |lines| || lines == [] then t.at else |lines| - 1)
  }

  function Replaced(t: Text, line: string): Text
    requires Proper(t)
  {
    if t.lines == [] then t else Text(t.lines[t.at := line], t.at)
  }

  /** Cursor moves; past either end the cursor stays. */
  function AtFirst(t: Text): Text {
    Text(t.lines, 0)
  }

  function AtLast(t: Text): Text {
    Text(t.lines, if t.lines == [] then 0 else |t.lines| - 1)
  }

  function AtNext(t: Text): Text {
    if t.at + 1 < |t.lines| then Text(t.lines, t.at + 1) else t
  }

  function AtPrevious(t: Text): Text {
    if t.at > 0 then Text(t.lines, t.at - 1) else t
  }

  function UnderCursor(t: Text): Option<string>
    requires Proper(t)
  {
    if t.lines == [] then None else Some(t.lines[t.at])
  }

  // ----- Runs of operations -----

  datatype Op =
    | Add(line: string) | Insert(line: string) | Remove | Replace(line: string)
    | First | Last | Next | Previous | Clear

  function Apply(t: Text, op: Op): (r: Text)
    requires Proper(t)
    ensures Proper(r)
  {
    match op
    case Add(line) => Added(t, line)
    case Insert(line) => Inserted(t, line)
    case Remove => Removed(t)
    case Replace(line) => Replaced(t, line)
    case First => AtFirst(t)
    case Last => AtLast(t)
    case Next => AtNext(t)
    case Previous => AtPrevious(t)
    case Clear => Text([], 0)
  }

  /** The list after a run that started with no lines. */
  function Run(ops: seq<Op>): (t: Text)
    ensures Proper(t)
  {
    if ops == [] then Text([], 0) else Apply(Run(ops[..|ops| - 1]), ops[|ops| - 1])
  }

  predicate Moves(op: Op) {
    op.First? || op.Last? || op.Next? || op.Previous?
  }

  function AddedLine(op: Op): seq<string> {
    if op.Add? then [op.line] else []
  }

  lemma MovesKeepLines(t: Text, op: Op)
    requires Proper(t) && (op.Add? || Moves(op))
    ensures Apply(t, op).lines == t.lines + AddedLine(op)
  {
  }

  /** Adding, with the cursor moved about in between, keeps the lines in the order they came. */
  lemma {:induction false} AddsInOrder(ops: seq<Op>, more: seq<Op>)
    requires forall op :: op in more ==> op.Add? || Moves(op)
    ensures Run(ops + more).lines == Run(ops).lines + Flat(AddedLine, more)
  {
    hide Apply;
    if more == [] {
      assert ops + more == ops;
    } else {
      var k := |more| - 1;
      AddsInOrder(ops, more[..k]);
      MovesKeepLines(Run(ops + more[..k]), more[k]);
      assert (ops + more)[..|ops + more| - 1] == ops + more[..k];
    }
  }

  function Again(op: Op, k: nat): (ops: seq<Op>)
    ensures |ops| == k
  {
    if k == 0 then [] else Again(op, k - 1) + [op]
  }

  /** After any run, First and k times Next come to line k, and Last and k times Previous to the
      line k before the last; past either end the cursor stays on the line at that end. */
  lemma WalkThere(ops: seq<Op>, k: nat)
    requires Run(ops).lines != []
    ensures var lines := Run(ops).lines; var n := |lines|;
            && Run(ops + [First] + Again(Next, k)) == Text(lines, if k < n then k else n - 1)
            && Run(ops + [Last] + Again(Previous, k)) == Text(lines, if k < n then n - 1 - k else 0)
  {
    hide Run, Again;
    RunThen(ops, First);
    RunThen(ops, Last);
    WalkOn(ops + [First], k);
    WalkBack(ops + [Last], k);
  }

  lemma {:induction false} WalkOn(ops: seq<Op>, k: nat)
    requires Run(ops).lines != [] && Run(ops).at == 0
    ensures var lines := Run(ops).lines;
            Run(ops + Again(Next, k)) == Text(lines, if k < |lines| then k else |lines| - 1)
  {
    hide Run;
    if k == 0 {
      assert ops + [] == ops;
    } else {
      WalkOn(ops, k - 1);
      assert ops + Again(Next, k) == ops + Again(Next, k - 1) + [Next];
      RunThen(ops + Again(Next, k - 1), Next);
    }
  }

  lemma {:induction false} WalkBack(ops: seq<Op>, k: nat)
    requires Run(ops).lines != [] && Run(ops).at == |Run(ops).lines| - 1
    ensures var lines := Run(ops).lines;
            Run(ops + Again(Previous, k)) == Text(lines, if k < |lines| then |lines| - 1 - k else 0)
  {
    hide Run;
    if k == 0 {
      assert ops + [] == ops;
    } else {
      WalkBack(ops, k - 1);
      assert ops + Again(Previous, k) == ops + Again(Previous, k - 1) + [Previous];
      RunThen(ops + Again(Previous, k - 1), Previous);
    }
  }

  lemma RunThen(ops: seq<Op>, op: Op)
    ensures Run(ops + [op]) == Apply(Run(ops), op)
  {
    assert (ops + [op])[..|ops|] == ops;
  }

  /** Removing the line under the cursor shows the line behind it, or the line before it if it was
      the last; the other lines keep their order. */
  lemma RemoveShows(ops: seq<Op>)
    requires |Run(ops).lines| > 1
    ensures var t := Run(ops); var r := Run(ops + [Remove]);
            && UnderCursor(r) == UnderCursor(if t.at + 1 < |t.lines| then Run(ops + [Next]) else Run(ops + [Previous]))
            && r.lines[..t.at] == t.lines[..t.at] && r.lines[t.at..] == t.lines[t.at + 1..]
  {
    hide Run;
    RunThen(ops, Remove);
    RunThen(ops, Next);
    RunThen(ops, Previous);
  }

  /** Replacing a line is inserting the new one behind it, going back and removing the old one. */
  lemma ReplaceIsInsertRemove(t: Text, line: string)
    requires Proper(t) && t.lines != []
    ensures Apply(t, Replace(line)) == Apply(Apply(Apply(t, Insert(line)), Previous), Remove)
  {
    var i := PutIn(t.lines, t.at + 1, line);
    assert Inserted(t, line) == Text(i, t.at + 1);
    assert AtPrevious(Inserted(t, line)) == Text(i, t.at);
    assert TakeOut(i, t.at) == t.lines[t.at := line];
  }

  /** Inserting one line after another puts them in order behind the line that was under the
      cursor, and leaves the cursor on the last. */
  lemma {:induction false} InsertsInOrder(t: Text, lines: seq<string>) returns (r: Text)
    requires Proper(t)
    ensures Proper(r) && r == InsertAll(t, lines)
    ensures var k := if t.lines == [] then 0 else t.at + 1;
            r.lines == t.lines[..k] + lines + t.lines[k..] && (lines != [] ==> r.at == k + |lines| - 1)
  {
    r := InsertAll(t, lines);
    var k := if t.lines == [] then 0 else t.at + 1;
    var a, c := t.lines[..k], t.lines[k..];
    if lines == [] {
      assert a + [] + c == t.lines;
    } else {
      hide PutIn, Inserted;
      var n := |lines| - 1;
      var before := InsertsInOrder(t, lines[..n]);
      assert n == 0 ==> before == t;
      InsertStep(before, a, lines[..n], lines[n], c);
      assert lines == lines[..n] + [lines[n]];
    }
  }

  lemma InsertStep(t: Text, a: seq<string>, b: seq<string>, x: string, c: seq<string>)
    requires Proper(t) && t.lines == a + b + c && (t.lines != [] ==> t.at + 1 == |a| + |b|)
    ensures Inserted(t, x) == Text(a + (b + [x]) + c, |a| + |b|)
  {
    OneMore(a, b, x, c);
  }

  lemma OneMore(a: seq<string>, b: seq<string>, x: string, c: seq<string>)
    ensures PutIn(a + b + c, |a| + |b|, x) == a + (b + [x]) + c
  {
    assert (a + b + c)[..|a| + |b|] == a + b && (a + b + c)[|a| + |b|..] == c;
  }

  function InsertAll(t: Text, lines: seq<string>): (r: Text)
    requires Proper(t)
    ensures Proper(r)
  {
    if lines == [] then t else Inserted(InsertAll(t, lines[..|lines| - 1]), lines[|lines| - 1])
  }

  /** Removing what was just inserted gives the lines back, with the cursor on the line behind,
      or on the one it was on when there is none. */
  lemma InsertThenRemove(t: Text, line: string)
    requires Proper(t)
    ensures Removed(Inserted(t, line)) == Text(t.lines, if t.at + 1 < |t.lines| then t.at + 1 else t.at)
  {
    var k := if t.lines == [] then 0 else t.at + 1;
    PutInAt(t.lines, k, line);
    assert TakeOut(PutIn(t.lines, k, line), k) == t.lines;
    assert PutIn(t.lines, k, line) == t.lines[..k] + [line] + t.lines[k..];
  }

  // ----- The nodes -----

  class LData {
    var previous: LData?
    var next: LData?
    var value: string

    constructor (value: string)
      ensures previous == null && next == null && this.value == value
    {
      previous, next, this.value := null, null, value;
    }
  }

  /** Pointers that lead from node to node, both ways, when no node comes twice. */
  ghost predicate Chained(nodes: seq<LData>, nexts: seq<LData?>, prevs: seq<LData?>) {
    && |nexts| == |prevs| == |nodes|
    && (nodes != [] ==> prevs[0] == null && nexts[|nodes| - 1] == null)
    && (forall i, j :: 0 <= i && i + 1 == j < |nodes| ==> nexts[i] == nodes[j] && prevs[j] == nodes[i])
    && (forall i, j :: 0 <= i < j < |nodes| ==> nodes[i] != nodes[j])
  }

  ghost function Nexts(nodes: seq<LData>): (n: seq<LData?>)
    reads nodes
    ensures |n| == |nodes| && forall i :: 0 <= i < |nodes| ==> n[i] == nodes[i].next
  {
    if nodes == [] then [] else Nexts(nodes[..|nodes| - 1]) + [nodes[|nodes| - 1].next]
  }

  ghost function Prevs(nodes: seq<LData>): (p: seq<LData?>)
    reads nodes
    ensures |p| == |nodes| && forall i :: 0 <= i < |nodes| ==> p[i] == nodes[i].previous
  {
    if nodes == [] then [] else Prevs(nodes[..|nodes| - 1]) + [nodes[|nodes| - 1].previous]
  }

  ghost function Values(nodes: seq<LData>): (v: seq<string>)
    reads nodes
    ensures |v| == |nodes| && forall i :: 0 <= i < |nodes| ==> v[i] == nodes[i].value
  {
    if nodes == [] then [] else Values(nodes[..|nodes| - 1]) + [nodes[|nodes| - 1].value]
  }

  /** A well-formed doubly linked list. */
  ghost predicate Linked(nodes: seq<LData>)
    reads nodes
  {
    Chained(nodes, Nexts(nodes), Prevs(nodes))
  }

  /** The neighbours of the node at position k, and that each stands there only. */
  lemma Around(nodes: seq<LData>, k: nat)
    requires Linked(nodes) && k < |nodes|
    ensures nodes[k].previous == if k == 0 then null else nodes[k - 1]
    ensures nodes[k].next == if k + 1 == |nodes| then null else nodes[k + 1]
    ensures forall i :: 0 <= i < |nodes| && i != k ==> nodes[i] != nodes[k]
    ensures k > 0 ==> forall i :: 0 <= i < |nodes| && i != k - 1 ==> nodes[i] != nodes[k - 1]
    ensures k + 1 < |nodes| ==> forall i :: 0 <= i < |nodes| && i != k + 1 ==> nodes[i] != nodes[k + 1]
  {
  }

  lemma Alone(node: LData)
    requires node.previous == null && node.next == null
    ensures Linked([node]) && Values([node]) == [node.value]
  {
  }

  // ----- What relinking does to the whole list -----

  lemma PutInAt<T>(s: seq<T>, k: nat, x: T)
    requires k <= |s|
    ensures var t := PutIn(s, k, x);
            && |t| == |s| + 1 && t[k] == x
            && (forall i :: 0 <= i < k ==> t[i] == s[i])
            && (forall i :: k < i < |t| ==> t[i] == s[i - 1])
  {
  }

  lemma TakeOutAt<T>(s: seq<T>, k: nat)
    requires k < |s|
    ensures var t := TakeOut(s, k);
            && |t| == |s| - 1
            && (forall i :: 0 <= i < k ==> t[i] == s[i])
            && (forall i :: k <= i < |t| ==> t[i] == s[i + 1])
            && forall x :: x in t ==> x in s
  {
  }

  /** A node linked in at position k. */
  lemma LinkedIn(was: seq<LData>, nexts: seq<LData?>, prevs: seq<LData?>, k: nat, node: LData)
    requires k <= |was| && Chained(was, nexts, prevs) && node !in was
    requires forall i :: 0 <= i < |was| ==> was[i].next == if i + 1 == k then node else nexts[i]
    requires forall i :: 0 <= i < |was| ==> was[i].previous == if i == k then node else prevs[i]
    requires node.previous == if k == 0 then null else was[k - 1]
    requires node.next == if k == |was| then null else was[k]
    ensures Linked(PutIn(was, k, node))
  {
    PutInAt(was, k, node);
    var t := PutIn(was, k, node);
    hide PutIn, Nexts, Prevs;
    forall i, j | 0 <= i && i + 1 == j < |t|
      ensures t[i].next == t[j] && t[j].previous == t[i]
    {
      if j < k {
        assert t[i] == was[i] && t[j] == was[j];
      } else if i > k {
        assert t[i] == was[i - 1] && t[j] == was[j - 1];
      }
    }
    forall i, j | 0 <= i < j < |t|
      ensures t[i] != t[j]
    {
    }
  }

  lemma ValuesIn(was: seq<LData>, values: seq<string>, k: nat, node: LData)
    requires k <= |was| == |values|
    requires forall i :: 0 <= i < |was| ==> was[i].value == values[i]
    ensures Values(PutIn(was, k, node)) == PutIn(values, k, node.value)
  {
    hide Values;
    PutInAt(was, k, node);
    PutInAt(values, k, node.value);
    hide PutIn;
    var a, b := Values(PutIn(was, k, node)), PutIn(values, k, node.value);
    assert |a| == |b| && forall i :: 0 <= i < |a| ==> a[i] == b[i];
  }

  /** The node at position k linked out. */
  lemma LinkedOut(was: seq<LData>, nexts: seq<LData?>, prevs: seq<LData?>, k: nat)
    requires k < |was| && Chained(was, nexts, prevs)
    requires forall i :: 0 <= i < |was| && i != k ==> was[i].next == if i + 1 == k then nexts[k] else nexts[i]
    requires forall i :: 0 <= i < |was| && i != k ==> was[i].previous == if i == k + 1 then prevs[k] else prevs[i]
    ensures Linked(TakeOut(was, k))
  {
    TakeOutAt(was, k);
    var t := TakeOut(was, k);
    hide TakeOut, Nexts, Prevs;
    forall i, j | 0 <= i && i + 1 == j < |t|
      ensures t[i].next == t[j] && t[j].previous == t[i]
    {
      if j < k {
        assert t[i] == was[i] && t[j] == was[j];
      } else if i >= k {
        assert t[i] == was[i + 1] && t[j] == was[j + 1];
      } else {
        assert t[i] == was[i] && t[j] == was[j + 1];
      }
    }
  }

  lemma ValuesOut(was: seq<LData>, values: seq<string>, k: nat)
    requires k < |was| == |values|
    requires forall i :: 0 <= i < |was| && i != k ==> was[i].value == values[i]
    ensures Values(TakeOut(was, k)) == TakeOut(values, k)
  {
    hide Values;
    TakeOutAt(was, k);
    TakeOutAt(values, k);
    hide TakeOut;
    var a, b := Values(TakeOut(was, k)), TakeOut(values, k);
    assert |a| == |b| && forall i :: 0 <= i < |a| ==> a[i] == b[i];
  }

  /** Another node in the place of the one at position k. */
  lemma LinkedOver(was: seq<LData>, nexts: seq<LData?>, prevs: seq<LData?>, k: nat, node: LData)
    requires k < |was| && Chained(was, nexts, prevs) && node !in was
    requires forall i :: 0 <= i < |was| && i != k ==> was[i].next == if i + 1 == k then node else nexts[i]
    requires forall i :: 0 <= i < |was| && i != k ==> was[i].previous == if i == k + 1 then node else prevs[i]
    requires node.previous == prevs[k] && node.next == nexts[k]
    ensures Linked(was[k := node])
  {
    hide Nexts, Prevs;
    var t := was[k := node];
    forall i, j | 0 <= i && i + 1 == j < |t|
      ensures t[i].next == t[j] && t[j].previous == t[i]
    {
      assert nexts[i] == was[j] && prevs[j] == was[i];
    }
  }

  lemma ValuesOver(was: seq<LData>, values: seq<string>, k: nat, node: LData)
    requires k < |was| == |values|
    requires forall i :: 0 <= i < |was| && i != k ==> was[i].value == values[i]
    ensures Values(was[k := node]) == values[k := node.value]
  {
    hide Values;
    var a, b := Values(was[k := node]), values[k := node.value];
    assert |a| == |b| && forall i :: 0 <= i < |a| ==> a[i] == b[i];
  }

  // ----- Relinking -----

  function Beside(n: LData?): set<LData> {
    if n == null then {} else {n}
  }

  /** Link `node` in behind `list`. */
  method LinkBehind(list: LData, node: LData)
    requires node != list && list.next != list && list.next != node
    modifies list`next, node`previous, node`next, Beside(list.next)`previous
    ensures node.previous == list && node.next == old(list.next) && list.next == node
    ensures node.next != null ==> node.next.previous == node
  {
    node.previous := list;
    node.next := list.next;
    if node.next != null { node.next.previous := node; }
    list.next := node;
  }

  /** Link `list` out. */
  method LinkOut(list: LData)
    requires list.next != list && list.previous != list
    requires list.next != null ==> list.next != list.previous
    modifies Beside(list.previous)`next, Beside(list.next)`previous
    ensures list.previous != null ==> list.previous.next == list.next
    ensures list.next != null ==> list.next.previous == list.previous
    ensures list.previous == old(list.previous) && list.next == old(list.next)
  {
    if list.previous != null { list.previous.next := list.next; }
    if list.next != null { list.next.previous := list.previous; }
  }

  /** Link `node` in instead of `list`. */
  method LinkInstead(list: LData, node: LData)
    requires node != list && list.next != list && list.previous != list && list.next != node && list.previous != node
    requires list.next != null ==> list.next != list.previous
    modifies node`previous, node`next, Beside(list.previous)`next, Beside(list.next)`previous
    ensures node.next == old(list.next) && node.previous == old(list.previous)
    ensures node.next != null ==> node.next.previous == node
    ensures node.previous != null ==> node.previous.next == node
  {
    node.next := list.next;
    node.previous := list.previous;
    if node.next != null { node.next.previous := node; }
    if node.previous != null { node.previous.next := node; }
  }

  /** A new node behind the one at position k. */
  method NewBehind(list: LData, value: string, ghost nodes: seq<LData>, ghost k: nat) returns (node: LData)
    requires Linked(nodes) && k < |nodes| && list == nodes[k]
    modifies nodes
    ensures fresh(node) && Linked(PutIn(nodes, k + 1, node))
    ensures Values(PutIn(nodes, k + 1, node)) == PutIn(old(Values(nodes)), k + 1, value)
  {
    hide Chained, PutIn;
    ghost var nexts, prevs, values := Nexts(nodes), Prevs(nodes), Values(nodes);
    Around(nodes, k);
    node := new LData(value);
    LinkBehind(list, node);
    LinkedIn(nodes, nexts, prevs, k + 1, node);
    ValuesIn(nodes, values, k + 1, node);
  }

  /** The node at position k taken out. */
  method WithoutNode(list: LData, ghost nodes: seq<LData>, ghost k: nat)
    requires Linked(nodes) && k < |nodes| && list == nodes[k]
    modifies nodes
    ensures Linked(TakeOut(nodes, k)) && Values(TakeOut(nodes, k)) == TakeOut(old(Values(nodes)), k)
    ensures list.next == old(list.next) && list.previous == old(list.previous)
  {
    hide Chained, TakeOut;
    ghost var nexts, prevs, values := Nexts(nodes), Prevs(nodes), Values(nodes);
    Around(nodes, k);
    LinkOut(list);
    LinkedOut(nodes, nexts, prevs, k);
    ValuesOut(nodes, values, k);
  }

  /** A new node instead of the one at position k. */
  method NewInstead(list: LData, value: string, ghost nodes: seq<LData>, ghost k: nat) returns (node: LData)
    requires Linked(nodes) && k < |nodes| && list == nodes[k]
    modifies nodes
    ensures fresh(node) && Linked(nodes[k := node]) && Values(nodes[k := node]) == old(Values(nodes))[k := value]
  {
    hide Chained;
    ghost var nexts, prevs, values := Nexts(nodes), Prevs(nodes), Values(nodes);
    Around(nodes, k);
    node := new LData(value);
    LinkInstead(list, node);
    LinkedOver(nodes, nexts, prevs, k, node);
    ValuesOver(nodes, values, k, node);
  }

  /** elements is an unsigned short. */
  const COUNT_MOD: int := 0x10000

  class TextList {
    /** The node under the cursor. */
    var list: LData?
    var elements: nat
    ghost var nodes: seq<LData>
    ghost var at: nat

    ghost predicate Valid()
      reads this, nodes
    {
      && Linked(nodes)
      && (if nodes == [] then list == null && at == 0 else at < |nodes| && list == nodes[at])
      && elements == |nodes| % COUNT_MOD
    }

    ghost function View(): Text
      reads this, nodes
    {
      Text(Values(nodes), at)
    }

    constructor ()
      ensures Valid() && View() == Text([], 0) && nodes == []
    {
      list, elements, nodes, at := null, 0, [], 0;
    }

    method First() returns (value: Option<string>)
      requires Valid()
      modifies this`list, this`at
      ensures Valid() && nodes == old(nodes) && View() == AtFirst(old(View())) && value == UnderCursor(View())
    {
      value := None;
      if list != null {
        while list.previous != null
          invariant Valid() && nodes == old(nodes) && list != null
          decreases at
        {
          Around(nodes, at);
          list := list.previous;
          at := at - 1;
        }
        Around(nodes, at);
        value := Some(list.value);
      }
    }

    /** Move the cursor to the last line. */
    method ToEnd()
      requires Valid() && list != null
      modifies this`list, this`at
      ensures Valid() && nodes == old(nodes) && View().lines == old(View()).lines && at + 1 == |nodes|
    {
      hide Linked, Values;
      Around(nodes, at);
      while list.next != null
        invariant Valid() && nodes == old(nodes) && list != null && View().lines == old(View()).lines
        invariant list.next == null ==> at + 1 == |nodes|
        decreases |nodes| - at
      {
        Around(nodes, at);
        list := list.next;
        at := at + 1;
        Around(nodes, at);
      }
    }

    method Last() returns (value: Option<string>)
      requires Valid()
      modifies this`list, this`at
      ensures Valid() && nodes == old(nodes) && View() == AtLast(old(View())) && value == UnderCursor(View())
    {
      hide Linked;
      value := None;
      if list != null {
        ToEnd();
        value := Some(list.value);
      }
    }

    method Next() returns (value: Option<string>)
      requires Valid()
      modifies this`list, this`at
      ensures Valid() && nodes == old(nodes) && View() == AtNext(old(View()))
      ensures value == if View() == old(View()) then None else UnderCursor(View())
    {
      value := None;
      if list != null { Around(nodes, at); }
      if list != null && list.next != null {
        list := list.next;
        at := at + 1;
        value := Some(list.value);
      }
    }

    method Previous() returns (value: Option<string>)
      requires Valid()
      modifies this`list, this`at
      ensures Valid() && nodes == old(nodes) && View() == AtPrevious(old(View()))
      ensures value == if View() == old(View()) then None else UnderCursor(View())
    {
      value := None;
      if list != null { Around(nodes, at); }
      if list != null && list.previous != null {
        list := list.previous;
        at := at - 1;
        value := Some(list.value);
      }
    }

    /** Put a new node behind the cursor, or alone in an empty list, and move to it. */
    method NewHere(value: string)
      requires Valid()
      modifies this`list, this`nodes, this`at, nodes
      ensures Linked(nodes) && at < |nodes| && list == nodes[at] && |nodes| == old(|nodes|) + 1
      ensures forall n :: n in nodes ==> n in old(nodes) || fresh(n)
      ensures View() == Inserted(old(View()), value)
    {
      hide Linked, PutIn, Values;
      if list != null {
        var added := NewBehind(list, value, nodes, at);
        PutInAt(nodes, at + 1, added);
        nodes := PutIn(nodes, at + 1, added);
        at := at + 1;
        list := added;
      } else {
        var added := new LData(value);
        Alone(added);
        nodes := [added];
        list := added;
      }
    }

    /** MsgText_Insert3. */
    method Insert3(value: string) returns (ok: bool)
      requires Valid()
      modifies this, nodes
      ensures Valid() && ok && View() == Inserted(old(View()), value)
      ensures forall n :: n in nodes ==> n in old(nodes) || fresh(n)
    {
      hide Linked, Values, Inserted;
      NewHere(value);
      elements := (elements + 1) % COUNT_MOD;
      ok := true;
    }

    /** MsgText_Add3. */
    method Add3(value: string) returns (ok: bool)
      requires Valid()
      modifies this, nodes
      ensures Valid() && ok && View() == Added(old(View()), value)
      ensures forall n :: n in nodes ==> n in old(nodes) || fresh(n)
    {
      hide Linked, Values, Inserted;
      if list != null {
        ToEnd();
      }
      InsertAtEnd(View(), value);
      NewHere(value);
      elements := (elements + 1) % COUNT_MOD;
      ok := true;
    }

    /** Take the node under the cursor out of the list. */
    method TakeHere()
      requires Valid() && nodes != []
      modifies this`list, this`nodes, this`at, nodes
      ensures Linked(nodes) && nodes == TakeOut(old(nodes), old(at))
      ensures Values(nodes) == TakeOut(old(Values(nodes)), old(at))
      ensures at == if old(at) < |nodes| || nodes == [] then old(at) else |nodes| - 1
      ensures if nodes == [] then list == null else list == nodes[at]
    {
      hide Linked, TakeOut, Values;
      Around(nodes, at);
      TakeOutAt(nodes, at);
      var next, previous := list.next, list.previous;
      WithoutNode(list, nodes, at);
      nodes := TakeOut(nodes, at);
      if next == null && previous != null { at := at - 1; }
      list := if next != null then next else previous;
    }

    /** MsgText_Remove. */
    method Remove()
      requires Valid()
      modifies this, nodes
      ensures Valid() && View() == Removed(old(View()))
      ensures forall i :: 0 <= i < |nodes| ==> nodes[i] in old(nodes)
      ensures |nodes| == if old(nodes) == [] then 0 else |old(nodes)| - 1
    {
      hide Linked, TakeOut, Values;
      if list != null {
        TakeOutAt(nodes, at);
        TakeHere();
        elements := (elements - 1) % COUNT_MOD;
      }
    }

    /** MsgText_Replace3. */
    method Replace3(value: string) returns (ok: bool)
      requires Valid()
      modifies this, nodes
      ensures Valid() && ok == (old(View()).lines != []) && View() == Replaced(old(View()), value)
      ensures forall n :: n in nodes ==> n in old(nodes) || fresh(n)
    {
      hide Linked, Values;
      ok := false;
      if list != null {
        var added := NewInstead(list, value, nodes, at);
        nodes := nodes[at := added];
        list := added;
        ok := true;
      }
    }

    /** MsgText_Clear. */
    method Clear()
      requires Valid()
      modifies this, nodes
      ensures Valid() && View() == Text([], 0) && nodes == [] && elements == 0
    {
      hide Linked, Values, Removed;
      while list != null
        invariant Valid()
        invariant forall i :: 0 <= i < |nodes| ==> nodes[i] in old(nodes)
        decreases |nodes|
      {
        Remove();
      }
      elements := 0;
    }

    method Perform(op: Op)
      requires Valid() && Proper(View())
      modifies this, nodes
      ensures Valid() && View() == Apply(old(View()), op)
      ensures forall i :: 0 <= i < |nodes| ==> nodes[i] in old(nodes) || fresh(nodes[i])
    {
      hide Linked, Values, Inserted, Added, Removed, Replaced, AtNext, AtPrevious, AtLast;
      match op
      case Add(line) => var ok := Add3(line);
      case Insert(line) => var ok := Insert3(line);
      case Remove => Remove();
      case Replace(line) => var ok := Replace3(line);
      case First => var v := First();
      case Last => var v := Last();
      case Next => var v := Next();
      case Previous => var v := Previous();
      case Clear => Clear();
    }

    /** The walk with which JAM_AddMsg stores the lines: from the first, as long as there is
        a next. */
    method AllLines() returns (lines: seq<string>)
      requires Valid()
      modifies this`list, this`at
      ensures Valid() && nodes == old(nodes) && lines == View().lines == old(View()).lines
    {
      hide Linked, Values;
      lines := [];
      var line := First();
      while line.Some?
        invariant Valid() && nodes == old(nodes) && View().lines == old(View()).lines
        invariant if line.Some? then UnderCursor(View()) == line && lines == View().lines[..at]
                  else lines == View().lines
        decreases line.Some?, |nodes| - at
      {
        lines := lines + [line.value];
        line := Next();
      }
    }
  }

  lemma InsertAtEnd(t: Text, line: string)
    requires Proper(t) && (t.lines != [] ==> t.at + 1 == |t.lines|)
    ensures Inserted(t, line) == Added(t, line)
  {
  }

  /** Every run of operations on the nodes does what it does to the sequence with its cursor. */
  method Perform(ops: seq<Op>) returns (list: TextList)
    ensures fresh(list) && list.Valid() && list.View() == Run(ops)
    ensures list.elements == |Run(ops).lines| % COUNT_MOD
  {
    hide Linked, Values, Apply;
    list := new TextList();
    assert ops[..0] == [];
    for k := 0 to |ops|
      invariant fresh(list) && list.Valid() && list.View() == Run(ops[..k])
      invariant forall i :: 0 <= i < |list.nodes| ==> fresh(list.nodes[i])
    {
      assert ops[..k + 1][..k] == ops[..k];
      list.Perform(ops[k]);
    }
    assert ops[..|ops|] == ops;
  }
}
