/**
  The preflight itself: an explicit stack instead of recursion, and a bounded
  least-recently-used memo so that a shared container is measured once.
*/
module JsonPreflight {
  import opened Wrappers
  import opened JsonValues

  const MEMO_CAPACITY: nat := 4096

  // ----- the memo ----------------------------------------------------------------------------

  function Without(order: seq<nat>, id: nat): (r: seq<nat>)
    ensures forall x :: x in r <==> x in order && x != id
  {
    if order == [] then []
    else if order[0] == id then Without(order[1..], id)
    else [order[0]] + Without(order[1..], id)
  }

  ghost predicate Distinct(order: seq<nat>) {
    forall i, j :: 0 <= i < j < |order| ==> order[i] != order[j]
  }

  ghost predicate Lists(order: seq<nat>, table: map<nat, Extent>) {
    Distinct(order) && forall x :: x in order <==> x in table
  }

  lemma {:induction false} WithoutDistinct(order: seq<nat>, id: nat)
    requires Distinct(order)
    ensures Distinct(Without(order, id))
  {
    if order != [] {
      var rest := Without(order[1..], id);
      WithoutDistinct(order[1..], id);
      forall i, j | 0 <= i < j < |Without(order, id)| ensures Without(order, id)[i] != Without(order, id)[j] {
        if order[0] != id && i == 0 {
          assert rest[j - 1] in order[1..];
        }
      }
    }
  }

  lemma EvictOldest(table: map<nat, Extent>, order: seq<nat>)
    requires Lists(order, table) && |table| > 0
    ensures order != [] && Lists(order[1..], table - {order[0]}) && |table - {order[0]}| == |table| - 1
  {
    assert table.Keys != {} by { assert |table.Keys| == |table|; }
    var x :| x in table;
    assert x in order;
    OneFewer(table, order[0]);
    RestDistinct(order);
    hide Distinct;
    assert forall y :: y in order <==> y == order[0] || y in order[1..];
  }

  lemma RestDistinct(order: seq<nat>)
    requires Distinct(order) && order != []
    ensures Distinct(order[1..]) && order[0] !in order[1..]
  {
  }

  lemma OneFewer(table: map<nat, Extent>, x: nat)
    requires x in table
    ensures |table - {x}| == |table| - 1
  {
    assert (table - {x}).Keys == table.Keys - {x};
    assert |table - {x}| == |(table - {x}).Keys| && |table| == |table.Keys|;
  }

  /** An ordered dictionary that forgets its least recently used key when it is full. */
  class Memo {
    var table: map<nat, Extent>
    var order: seq<nat>

    ghost predicate Valid()
      reads this
    {
      Lists(order, table) && |table| <= MEMO_CAPACITY
    }

    constructor ()
      ensures Valid() && table == map[] && order == []
    {
      table, order := map[], [];
    }

    method Touch(id: nat)
      requires Valid() && id in table
      modifies this`order
      ensures Valid() && order == Without(old(order), id) + [id]
    {
      WithoutDistinct(order, id);
      order := Without(order, id) + [id];
    }

    method Remember(id: nat, e: Extent)
      requires Valid()
      modifies this
      ensures Valid()
      ensures var full := old(table)[id := e];
              if |full| <= MEMO_CAPACITY then table == full && order == Without(old(order), id) + [id]
              else old(order) != [] && table == full - {old(order)[0]} && order == (Without(old(order), id) + [id])[1..]
      ensures forall x :: x in table ==> if x == id then table[x] == e else x in old(table) && table[x] == old(table)[x]
    {
      WithoutDistinct(order, id);
      ghost var before := order;
      table := table[id := e];
      order := Without(order, id) + [id];
      assert Lists(order, table);
      if |table| > MEMO_CAPACITY {
        WithoutAbsent(before, id);
        EvictOldest(table, order);
        EvictOldest(old(table), before);
        table := table - {order[0]};
        order := order[1..];
      }
    }
  }

  lemma {:induction false} WithoutAbsent(order: seq<nat>, id: nat)
    requires id !in order
    ensures Without(order, id) == order
  {
    if order != [] { WithoutAbsent(order[1..], id); }
  }

  ghost predicate EntryOk(h: Heap, id: nat, e: Extent) {
    (id in h.containers && e.height >= 0 && Measure(h, Container(id), e.height) == Some(e)) ||
    (id in h.texts && Measure(h, Text(id), -1) == Some(e))
  }

  /** Every remembered extent is the extent the object has. */
  ghost predicate MemoSound(h: Heap, table: map<nat, Extent>) {
    forall id :: id in table ==> EntryOk(h, id, table[id])
  }

  // ----- the stack ---------------------------------------------------------------------------

  datatype Frame = Frame(id: nat, depth: nat, next: nat, size: nat, height: int)

  datatype Verdict = Accepted(spent: nat) | Rejected

  function Kids(h: Heap, id: nat): seq<Value>
    requires id in h.containers
  {
    Children(h.containers[id])
  }

  /** The frame at depth `k` has finished the children before the one it is waiting for. */
  ghost predicate FrameOk(h: Heap, f: Frame, k: nat)
    requires Closed(h)
  {
    f.depth == k <= MAX_DEPTH && f.id in h.containers && 1 <= f.next <= |Kids(h, f.id)| &&
    NamesOk(h.containers[f.id], f.next) &&
    var m := MeasureAll(h, Kids(h, f.id)[..f.next - 1], MAX_DEPTH - 1 - k);
    m.Some? && f.size == 2 + m.value.size + (if f.next > 1 then 1 else 0) &&
    f.height == (if m.value.height < 0 then 0 else m.value.height + 1)
  }

  function Node(pending: seq<Frame>, value: Value, k: nat): Value {
    if k < |pending| then Container(pending[k].id) else value
  }

  /** The stack is the path from the payload to the value being looked at. */
  ghost predicate PathOk(h: Heap, payload: Value, pending: seq<Frame>, value: Value)
    requires Closed(h)
  {
    Known(h, value) && Node(pending, value, 0) == payload &&
    (forall k :: 0 <= k < |pending| ==> EdgeOk(h, pending, value, k))
  }

  ghost predicate EdgeOk(h: Heap, pending: seq<Frame>, value: Value, k: nat)
    requires Closed(h) && k < |pending|
  {
    FrameOk(h, pending[k], k) && Kids(h, pending[k].id)[pending[k].next - 1] == Node(pending, value, k + 1)
  }

  ghost predicate NoCycle(pending: seq<Frame>) {
    forall i, j :: 0 <= i < j < |pending| ==> pending[i].id != pending[j].id
  }

  function ActiveIds(pending: seq<Frame>): set<nat> {
    set f | f in pending :: f.id
  }

  function Spent(pending: seq<Frame>): nat {
    if pending == [] then 0 else Spent(pending[..|pending| - 1]) + pending[|pending| - 1].size
  }

  function SizeAt(h: Heap, pending: seq<Frame>, value: Value, k: nat): nat
    requires Known(h, Node(pending, value, k))
  {
    match Measure(h, Node(pending, value, k), MAX_DEPTH - k) case Some(e) => e.size case None => 0
  }

  lemma KidsKnown(h: Heap, id: nat)
    requires Closed(h) && id in h.containers
    ensures forall i :: 0 <= i < |Kids(h, id)| ==> Known(h, Kids(h, id)[i])
  {
  }

  lemma ChildMeasures(h: Heap, cs: seq<Value>, room: int, n: nat)
    requires forall i :: 0 <= i < |cs| ==> Known(h, cs[i])
    requires n < |cs| && MeasureAll(h, cs, room).Some?
    ensures MeasureAll(h, cs[..n], room).Some? && Measure(h, cs[n], room).Some?
    ensures MeasureAll(h, cs[..n], room).value.size + Measure(h, cs[n], room).value.size + (if n > 0 then 1 else 0)
            <= MeasureAll(h, cs, room).value.size
  {
    PrefixMeasures(h, cs, room, n + 1);
    AppendChild(h, cs, n, room);
  }

  /** One edge of the path: if the container measures, so does the child, and it is strictly smaller. */
  lemma EdgeMeasures(h: Heap, payload: Value, pending: seq<Frame>, value: Value, k: nat)
    requires Closed(h) && PathOk(h, payload, pending, value) && k < |pending|
    requires Known(h, Node(pending, value, k)) && Measure(h, Node(pending, value, k), MAX_DEPTH - k).Some?
    ensures Known(h, Node(pending, value, k + 1)) && Measure(h, Node(pending, value, k + 1), MAX_DEPTH - k - 1).Some?
    ensures pending[k].size + SizeAt(h, pending, value, k + 1) <= SizeAt(h, pending, value, k) && pending[k].size >= 2
  {
    hide Measure, MeasureAll, FrameOk, Closed, Known, Kids;
    assert EdgeOk(h, pending, value, k);
    FrameMeasures(h, pending[k], k);
  }

  lemma FrameMeasures(h: Heap, f: Frame, k: nat)
    requires Closed(h) && FrameOk(h, f, k) && Measure(h, Container(f.id), MAX_DEPTH - k).Some?
    ensures f.id in h.containers && 1 <= f.next <= |Kids(h, f.id)| && f.size >= 2
    ensures var child := Kids(h, f.id)[f.next - 1];
            Known(h, child) && Measure(h, child, MAX_DEPTH - k - 1).Some? &&
            f.size + Measure(h, child, MAX_DEPTH - k - 1).value.size <= Measure(h, Container(f.id),
              MAX_DEPTH - k).value.size
  {
    MeasuredNames(h, f.id, MAX_DEPTH - k);
    hide Measure, MeasureAll, Kids, Known, Closed, NamesOk;
    ContainerMeasure(h, f.id, MAX_DEPTH - k);
    ChildMeasures(h, Kids(h, f.id), MAX_DEPTH - 1 - k, f.next - 1);
  }

  /** Down the whole path: every node measures, and what was spent above it is part of the total. */
  lemma {:induction false} PathMeasures(h: Heap, payload: Value, pending: seq<Frame>, value: Value, k: nat)
    requires Closed(h) && PathOk(h, payload, pending, value) && k <= |pending|
    requires Known(h, payload) && Measure(h, payload, MAX_DEPTH).Some?
    ensures Known(h, Node(pending, value, k)) && Measure(h, Node(pending, value, k), MAX_DEPTH - k).Some?
    ensures Spent(pending[..k]) + SizeAt(h, pending, value, k) <= Measure(h, payload, MAX_DEPTH).value.size
  {
    hide Measure, MeasureAll;
    if k > 0 {
      PathMeasures(h, payload, pending, value, k - 1);
      EdgeMeasures(h, payload, pending, value, k - 1);
      assert pending[..k][..k - 1] == pending[..k - 1];
    }
  }

  lemma {:induction false} SizesFall(h: Heap, payload: Value, pending: seq<Frame>, value: Value, i: nat, k: nat)
    requires Closed(h) && PathOk(h, payload, pending, value) && i < k <= |pending|
    requires Known(h, payload) && Measure(h, payload, MAX_DEPTH).Some?
    ensures Known(h, Node(pending, value, k)) && Known(h, Node(pending, value, i))
    ensures SizeAt(h, pending, value, k) < SizeAt(h, pending, value, i)
  {
    hide Measure, MeasureAll;
    PathMeasures(h, payload, pending, value, k - 1);
    EdgeMeasures(h, payload, pending, value, k - 1);
    if i < k - 1 { SizesFall(h, payload, pending, value, i, k - 1); }
  }

  /** A container that measures is not its own ancestor. */
  lemma NotItsOwnAncestor(h: Heap, payload: Value, pending: seq<Frame>, value: Value, k: nat)
    requires Closed(h) && PathOk(h, payload, pending, value) && k < |pending| <= 65
    requires Known(h, payload) && Measure(h, payload, MAX_DEPTH).Some?
    ensures Container(pending[k].id) != value
  {
    hide Measure, MeasureAll;
    SizesFall(h, payload, pending, value, k, |pending|);
    PathMeasures(h, payload, pending, value, k);
    PathMeasures(h, payload, pending, value, |pending|);
    RoomOnlyLimitsHeight(h, value, MAX_DEPTH - |pending|, MAX_DEPTH - k);
  }

  /** Why a refusal is right: an acceptable payload has a measurable value here, within budget, on no cycle. */
  lemma AcceptableHere(h: Heap, payload: Value, pending: seq<Frame>, value: Value)
    requires Closed(h) && PathOk(h, payload, pending, value) && Known(h, payload) && Acceptable(h, payload)
    requires |pending| <= 65
    ensures Measure(h, value, MAX_DEPTH - |pending|).Some?
    ensures Spent(pending) + Measure(h, value, MAX_DEPTH - |pending|).value.size <= MAX_MESSAGE_BYTES
    ensures value.Container? ==> value.id !in ActiveIds(pending) && |pending| <= 64
  {
    PathMeasures(h, payload, pending, value, |pending|);
    assert pending[..|pending|] == pending;
    forall k | 0 <= k < |pending| ensures Container(pending[k].id) != value {
      NotItsOwnAncestor(h, payload, pending, value, k);
    }
  }

  /** A remembered extent says everything about the object at any depth. */
  lemma MemoTells(h: Heap, table: map<nat, Extent>, value: Value, depth: nat)
    requires Closed(h) && MemoSound(h, table) && Known(h, value) && !value.Plain? && value.id in table
    requires depth <= 65
    ensures var e := table[value.id];
            e.size >= 1 && Measure(h, value, MAX_DEPTH - depth) == if depth + e.height <= MAX_DEPTH then Some(e)
              else None
    ensures value.Text? ==> table[value.id].height == -1
  {
    if value.Container? {
      RoomOnlyLimitsHeight(h, value, table[value.id].height, MAX_DEPTH - depth);
    } else {
      RoomOnlyLimitsHeight(h, value, -1, MAX_DEPTH - depth);
    }
  }

  lemma RememberSound(h: Heap, table: map<nat, Extent>, after: map<nat, Extent>, value: Value, e: Extent, depth: nat)
    requires Closed(h) && MemoSound(h, table) && Known(h, value) && !value.Plain? && depth <= 65
    requires Measure(h, value, MAX_DEPTH - depth) == Some(e)
    requires forall id :: id in after ==>
             if id == value.id then after[id] == e else id in table && after[id] == table[id]
    ensures MemoSound(h, after)
  {
    assert EntryOk(h, value.id, e) by {
      RoomOnlyLimitsHeight(h, value, MAX_DEPTH - depth, -1);
      RoomOnlyLimitsHeight(h, value, MAX_DEPTH - depth, if value.Container? then e.height else -1);
    }
    hide EntryOk, Measure, MeasureAll;
  }

  lemma ContainerMeasure(h: Heap, id: nat, room: int)
    requires Closed(h) && id in h.containers && room >= 0 && NamesOk(h.containers[id], |Kids(h, id)|)
    ensures forall i :: 0 <= i < |Kids(h, id)| ==> Known(h, Kids(h, id)[i])
    ensures Measure(h, Container(id), room) ==
            match MeasureAll(h, Kids(h, id), room - 1)
            case Some(e) => Some(Extent(e.height + 1, e.size + 2))
            case None => None
  {
    KidsKnown(h, id);
  }

  /** The top frame takes the extent of the child it was waiting for. */
  lemma Absorb(h: Heap, f: Frame, k: nat, e: Extent)
    requires Closed(h) && FrameOk(h, f, k) && Measure(h, Kids(h, f.id)[f.next - 1], MAX_DEPTH - 1 - k) == Some(e)
    ensures var height := if f.height < e.height + 1 then e.height + 1 else f.height;
            (f.next == |Kids(h, f.id)| ==>
               Measure(h, Container(f.id), MAX_DEPTH - k) == Some(Extent(height, f.size + e.size))) &&
            (f.next < |Kids(h, f.id)| && NamesOk(h.containers[f.id], f.next + 1) ==>
               FrameOk(h, Frame(f.id, k, f.next + 1, f.size + e.size + 1, height), k))
  {
    hide Measure, MeasureAll;
    var cs := Kids(h, f.id);
    if f.next == |cs| { ContainerMeasure(h, f.id, MAX_DEPTH - k); }
    KidsKnown(h, f.id);
    AppendChild(h, cs, f.next - 1, MAX_DEPTH - 1 - k);
    RoomOnlyLimitsHeight(h, cs[f.next - 1], MAX_DEPTH - 1 - k, MAX_DEPTH - 1 - k);
    RoomOnlyLimitsHeights(h, cs[..f.next - 1], MAX_DEPTH - 1 - k, MAX_DEPTH - 1 - k);
    assert cs[..|cs|] == cs;
  }

  lemma PathPop(h: Heap, payload: Value, pending: seq<Frame>, value: Value)
    requires Closed(h) && PathOk(h, payload, pending, value) && pending != []
    ensures var n := |pending| - 1;
            PathOk(h, payload, pending[..n], Container(pending[n].id)) && EdgeOk(h, pending, value, n)
  {
    hide FrameOk, Kids, Closed;
    var n := |pending| - 1;
    assert EdgeOk(h, pending, value, n);
    FrameShape(h, pending[n], n);
    forall k | 0 <= k < n ensures EdgeOk(h, pending[..n], Container(pending[n].id), k) {
      assert EdgeOk(h, pending, value, k);
    }
  }

  lemma PathPush(h: Heap, payload: Value, pending: seq<Frame>, f: Frame, child: Value)
    requires Closed(h) && PathOk(h, payload, pending, Container(f.id)) && FrameOk(h, f, |pending|)
    requires Kids(h, f.id)[f.next - 1] == child
    ensures PathOk(h, payload, pending + [f], child)
  {
    KidsKnown(h, f.id);
    var up := pending + [f];
    forall k | 0 <= k < |up| ensures EdgeOk(h, up, child, k) {
      if k < |pending| { assert EdgeOk(h, pending, Container(f.id), k); }
    }
  }

  lemma SpentPush(pending: seq<Frame>, f: Frame)
    ensures Spent(pending + [f]) == Spent(pending) + f.size
    ensures ActiveIds(pending + [f]) == ActiveIds(pending) + {f.id}
  {
    assert (pending + [f])[..|pending|] == pending;
  }

  lemma ActivePop(pending: seq<Frame>)
    requires pending != [] && NoCycle(pending)
    ensures var n := |pending| - 1;
            ActiveIds(pending[..n]) == ActiveIds(pending) - {pending[n].id} && NoCycle(pending[..n]) &&
            Spent(pending) == Spent(pending[..n]) + pending[n].size
  {
    var n := |pending| - 1;
    forall x | x in ActiveIds(pending) - {pending[n].id} ensures x in ActiveIds(pending[..n]) {
      var k :| 0 <= k < |pending| && pending[k].id == x;
      assert pending[..n][k].id == x;
    }
  }

  lemma ReplaceTop(pending: seq<Frame>, f: Frame)
    requires pending != [] && NoCycle(pending) && pending[|pending| - 1].id == f.id
    ensures var n := |pending| - 1;
            pending[n := f] == pending[..n] + [f] && NoCycle(pending[n := f]) &&
            ActiveIds(pending[n := f]) == ActiveIds(pending) && Spent(pending[n := f]) == Spent(pending[..n]) + f.size
  {
    var n := |pending| - 1;
    assert pending[n := f] == pending[..n] + [f];
    SpentPush(pending[..n], f);
    ActivePop(pending);
    assert f.id in ActiveIds(pending);
  }

  lemma PushActive(pending: seq<Frame>, f: Frame)
    requires NoCycle(pending) && f.id !in ActiveIds(pending)
    ensures NoCycle(pending + [f]) && ActiveIds(pending + [f]) == ActiveIds(pending) + {f.id}
    ensures Spent(pending + [f]) == Spent(pending) + f.size
  {
    SpentPush(pending, f);
    assert forall k :: 0 <= k < |pending| ==> pending[k].id in ActiveIds(pending);
  }

  /** The first frame of a container that has children and whose first child may be yielded. */
  lemma FirstFrame(h: Heap, id: nat, depth: nat)
    requires Closed(h) && id in h.containers && depth <= 64 && |Kids(h, id)| > 0 && NamesOk(h.containers[id], 1)
    ensures FrameOk(h, Frame(id, depth, 1, 2, 0), depth)
  {
    assert Kids(h, id)[..0] == [];
  }

  /** Whatever stops the traversal here, the payload is not acceptable. */
  lemma RefusedHere(h: Heap, payload: Value, pending: seq<Frame>, value: Value)
    requires Closed(h) && PathOk(h, payload, pending, value) && Known(h, payload) && |pending| <= 65
    requires var m := Measure(h, value, MAX_DEPTH - |pending|);
             m.None? || Spent(pending) + m.value.size > MAX_MESSAGE_BYTES ||
             (value.Container? && (value.id in ActiveIds(pending) || |pending| > 64))
    ensures !Acceptable(h, payload)
  {
    hide Measure, MeasureAll;
    if Acceptable(h, payload) { AcceptableHere(h, payload, pending, value); }
  }

  lemma EmptyContainer(h: Heap, value: Value, room: int)
    requires Closed(h) && Known(h, value) && value.Container? && room >= 0 && Kids(h, value.id) == []
    ensures Measure(h, value, room) == Some(Extent(0, 2))
  {
  }

  lemma BadName(h: Heap, value: Value, room: int, n: nat)
    requires Closed(h) && Known(h, value) && value.Container? && n <= |Kids(h, value.id)|
    requires !NamesOk(h.containers[value.id], n)
    ensures Measure(h, value, room).None?
  {
  }

  lemma MeasuredNames(h: Heap, id: nat, room: int)
    requires Closed(h) && id in h.containers && Measure(h, Container(id), room).Some?
    ensures room >= 0 && NamesOk(h.containers[id], |Kids(h, id)|)
  {
  }

  /**
    The budget at a container that is being left for its next child: what it costs in all
    covers what its finished children cost, one more separator, and a child.
  */
  lemma SeparatorInBudget(h: Heap, f: Frame, k: nat, room: int)
    requires Closed(h) && FrameOk(h, f, k) && room == MAX_DEPTH - k && f.next < |Kids(h, f.id)|
    requires Measure(h, Container(f.id), room).Some?
    requires Measure(h, Kids(h, f.id)[f.next - 1], room - 1).Some?
    ensures f.size + Measure(h, Kids(h, f.id)[f.next - 1], room - 1).value.size + 1 <= Measure(h, Container(f.id),
            room).value.size
    ensures NamesOk(h.containers[f.id], f.next + 1)
  {
    hide Measure, MeasureAll, NamesOk, Closed, Known, Kids;
    MeasuredNames(h, f.id, room);
    NamesBefore(h.containers[f.id], f.next + 1, |Kids(h, f.id)|);
    ContainerMeasure(h, f.id, room);
    NextCharge(h, Kids(h, f.id), room - 1, f.next);
  }

  lemma NamesBefore(shape: Shape, n: nat, m: nat)
    requires n <= m && NamesOk(shape, m)
    ensures NamesOk(shape, n)
  {
  }

  lemma NextCharge(h: Heap, cs: seq<Value>, room: int, n: nat)
    requires forall i :: 0 <= i < |cs| ==> Known(h, cs[i])
    requires 1 <= n < |cs| && MeasureAll(h, cs, room).Some?
    ensures MeasureAll(h, cs[..n - 1], room).Some? && Measure(h, cs[n - 1], room).Some?
    ensures MeasureAll(h, cs[..n - 1], room).value.size + (if n > 1 then 1 else 0) +
            Measure(h, cs[n - 1], room).value.size + 1 <= MeasureAll(h, cs, room).value.size
  {
    hide Measure, MeasureAll, Known;
    ChildMeasures(h, cs, room, n);
    AppendChild(h, cs, n - 1, room);
  }

  lemma LeafMeasure(h: Heap, value: Value, room: int)
    requires Known(h, value) && !value.Container?
    ensures var bytes := if value.Text? then TextBytes(h.texts[value.id]) else ScalarBytes(value.scalar, h.digitLimit);
            Measure(h, value, room) == if bytes.Some? then Some(Extent(-1, bytes.value)) else None
  {
  }

  lemma FrameShape(h: Heap, f: Frame, k: nat)
    requires Closed(h) && FrameOk(h, f, k)
    ensures f.depth == k <= 64 && f.id in h.containers && 1 <= f.next <= |Kids(h, f.id)| &&
            NamesOk(h.containers[f.id], f.next)
    ensures f.size >= 2
  {
  }

  /** The loop variables of the traversal besides the memo. */
  datatype Progress = Progress(pending: seq<Frame>, active: set<nat>, spent: nat)

  /** What one part of the loop body decides. */
  datatype Move = Refuse | Descend(child: Value) | Finish(height: int, size: nat)

  ghost predicate Stacked(h: Heap, payload: Value, t: Progress, value: Value)
    requires Closed(h)
  {
    PathOk(h, payload, t.pending, value) && |t.pending| <= 65 && t.active == ActiveIds(t.pending) && NoCycle(t.pending)
  }

  /** Before a value is looked at: what was spent is what the frames hold. */
  ghost predicate Arriving(h: Heap, payload: Value, t: Progress, value: Value)
    requires Closed(h)
  {
    Stacked(h, payload, t, value) && t.spent == Spent(t.pending) <= MAX_MESSAGE_BYTES
  }

  /** After a value is finished: its extent is known and paid for. */
  ghost predicate Leaving(h: Heap, payload: Value, t: Progress, value: Value, e: Extent)
    requires Closed(h)
  {
    Stacked(h, payload, t, value) && t.spent == Spent(t.pending) + e.size <= MAX_MESSAGE_BYTES &&
    Measure(h, value, MAX_DEPTH - |t.pending|) == Some(e)
  }

  method Charge(t: Progress, amount: nat) returns (charged: Progress, ok: bool)
    ensures charged == t.(spent := t.spent + amount) && ok == (charged.spent <= MAX_MESSAGE_BYTES)
  {
    charged := t.(spent := t.spent + amount);
    ok := charged.spent <= MAX_MESSAGE_BYTES;
  }

  lemma Here(h: Heap, payload: Value, t: Progress, value: Value)
    requires Closed(h) && Arriving(h, payload, t, value)
    ensures Known(h, value) && |t.pending| <= 65 && PathOk(h, payload, t.pending, value)
    ensures (value.Container? ==> value.id in h.containers) &&
            MAX_DEPTH - |t.pending| >= (if |t.pending| <= 64 then 0 else -1)
    ensures t.active == ActiveIds(t.pending) && NoCycle(t.pending) && t.spent == Spent(t.pending) <= MAX_MESSAGE_BYTES
  {
  }

  lemma Finished(h: Heap, payload: Value, t: Progress, r: Progress, value: Value, e: Extent)
    requires Closed(h) && Arriving(h, payload, t, value) && Known(h, value)
    requires r == t.(spent := t.spent + e.size) && r.spent <= MAX_MESSAGE_BYTES
    requires Measure(h, value, MAX_DEPTH - |t.pending|) == Some(e)
    ensures Leaving(h, payload, r, value, e)
  {
    hide Measure, MeasureAll, PathOk;
  }

  /** A container's first child is looked at with the container on the stack. */
  lemma Opened(h: Heap, payload: Value, t: Progress, value: Value)
    requires Closed(h) && Arriving(h, payload, t, value) && value.Container? && Known(h, value)
    requires value.id !in t.active && |t.pending| <= 64 && t.spent + 2 <= MAX_MESSAGE_BYTES
    requires |Kids(h, value.id)| > 0 && (h.containers[value.id].Mapping? ==> Kids(h, value.id)[0].Text?)
    ensures var frame := Frame(value.id, |t.pending|, 1, 2, 0);
            Arriving(h, payload, Progress(t.pending + [frame], t.active + {value.id}, t.spent + 2),
              Kids(h, value.id)[0])
  {
    hide Measure, MeasureAll, FrameOk, PathOk;
    var frame := Frame(value.id, |t.pending|, 1, 2, 0);
    FirstFrame(h, value.id, |t.pending|);
    PushActive(t.pending, frame);
    PathPush(h, payload, t.pending, frame, Kids(h, value.id)[0]);
  }

  /** The frame on top, and the child it has been waiting for. */
  lemma TopFrame(h: Heap, payload: Value, t: Progress, done: Value, e: Extent)
    requires Closed(h) && Leaving(h, payload, t, done, e) && t.pending != []
    ensures var n := |t.pending| - 1; var f := t.pending[n];
            FrameOk(h, f, n) && f.id in h.containers && f.depth == n <= 64 && 1 <= f.next <= |Kids(h, f.id)| &&
            NamesOk(h.containers[f.id], f.next) && Kids(h, f.id)[f.next - 1] == done &&
            Measure(h, Kids(h, f.id)[f.next - 1], MAX_DEPTH - 1 - n) == Some(e) &&
            PathOk(h, payload, t.pending[..n], Container(f.id)) && Known(h, Container(f.id))
  {
    hide Measure, MeasureAll, FrameOk;
    PathPop(h, payload, t.pending, done);
    FrameShape(h, t.pending[|t.pending| - 1], |t.pending| - 1);
  }

  /** The frame on top finishes its last child and becomes the finished value. */
  lemma Closing(h: Heap, payload: Value, t: Progress, done: Value, e: Extent)
    requires Closed(h) && Leaving(h, payload, t, done, e) && t.pending != []
    requires var f := t.pending[|t.pending| - 1]; f.id in h.containers && f.next == |Kids(h, f.id)|
    ensures var n := |t.pending| - 1; var f := t.pending[n];
            var grown := Extent(if f.height < e.height + 1 then e.height + 1 else f.height, f.size + e.size);
            Measure(h, Container(f.id), MAX_DEPTH - n) == Some(grown) &&
            Leaving(h, payload, Progress(t.pending[..n], t.active - {f.id}, t.spent), Container(f.id), grown)
  {
    hide Measure, MeasureAll, FrameOk, PathOk, NoCycle, ActiveIds, Spent, Closed;
    TopFrame(h, payload, t, done, e);
    ActivePop(t.pending);
    Absorb(h, t.pending[|t.pending| - 1], |t.pending| - 1, e);
  }

  lemma NextName(h: Heap, id: nat, n: nat)
    requires id in h.containers && NamesOk(h.containers[id], n) && n < |Kids(h, id)|
    requires h.containers[id].Mapping? && n % 2 == 0 ==> Kids(h, id)[n].Text?
    ensures NamesOk(h.containers[id], n + 1)
  {
  }

  /** The frame on top moves to its next child. */
  lemma Moving(h: Heap, payload: Value, t: Progress, done: Value, e: Extent)
    requires Closed(h) && Leaving(h, payload, t, done, e) && t.pending != [] && t.spent + 1 <= MAX_MESSAGE_BYTES
    requires var f := t.pending[|t.pending| - 1];
             f.id in h.containers && f.next < |Kids(h, f.id)| &&
             (h.containers[f.id].Mapping? && f.next % 2 == 0 ==> Kids(h, f.id)[f.next].Text?)
    ensures var n := |t.pending| - 1; var f := t.pending[n];
            var grown := if f.height < e.height + 1 then e.height + 1 else f.height;
            var waiting := Frame(f.id, n, f.next + 1, f.size + e.size + 1, grown);
            Arriving(h, payload, Progress(t.pending[n := waiting], t.active, t.spent + 1), Kids(h, f.id)[f.next])
  {
    hide Measure, MeasureAll, FrameOk, PathOk, NoCycle, ActiveIds, Spent, Closed, NamesOk;
    var n := |t.pending| - 1;
    var f := t.pending[n];
    var grown := if f.height < e.height + 1 then e.height + 1 else f.height;
    var waiting := Frame(f.id, n, f.next + 1, f.size + e.size + 1, grown);
    TopFrame(h, payload, t, done, e);
    NextName(h, f.id, f.next);
    ActivePop(t.pending);
    Absorb(h, f, n, e);
    ReplaceTop(t.pending, waiting);
    PathPush(h, payload, t.pending[..n], waiting, Kids(h, f.id)[f.next]);
  }

  /** When the separator no longer fits, neither does the container. */
  lemma NoSeparator(h: Heap, payload: Value, t: Progress, done: Value, e: Extent)
    requires Closed(h) && Known(h, payload) && Leaving(h, payload, t, done, e) && t.pending != [] &&
             t.spent + 1 > MAX_MESSAGE_BYTES
    requires var f := t.pending[|t.pending| - 1]; f.id in h.containers && f.next < |Kids(h, f.id)|
    ensures !Acceptable(h, payload)
  {
    hide Measure, MeasureAll, FrameOk, PathOk, NoCycle, ActiveIds, Spent, Closed;
    var n := |t.pending| - 1;
    var f := t.pending[n];
    TopFrame(h, payload, t, done, e);
    ActivePop(t.pending);
    if Measure(h, Container(f.id), MAX_DEPTH - n).Some? {
      SeparatorInBudget(h, f, n, MAX_DEPTH - n);
    }
    RefusedHere(h, payload, t.pending[..n], Container(f.id));
  }

  /** A container costs at least its two brackets. */
  lemma NoBrackets(h: Heap, payload: Value, t: Progress, value: Value)
    requires Closed(h) && Known(h, payload) && Arriving(h, payload, t, value) && value.Container?
    requires t.spent + 2 > MAX_MESSAGE_BYTES
    ensures !Acceptable(h, payload)
  {
    hide Measure, MeasureAll, PathOk;
    Here(h, payload, t, value);
    if Measure(h, value, MAX_DEPTH - |t.pending|).Some? {
      RoomOnlyLimitsHeight(h, value, MAX_DEPTH - |t.pending|, -1);
    }
    RefusedHere(h, payload, t.pending, value);
  }

  /** A member name that is not a string refuses the container it is in. */
  lemma NoName(h: Heap, payload: Value, pending: seq<Frame>, id: nat, n: nat)
    requires Closed(h) && Known(h, payload) && PathOk(h, payload, pending, Container(id)) && |pending| <= 65
    requires id in h.containers && 0 < n <= |Kids(h, id)|
    requires h.containers[id].Mapping? && (n - 1) % 2 == 0 && !Kids(h, id)[n - 1].Text?
    ensures !Acceptable(h, payload)
  {
    BadName(h, Container(id), MAX_DEPTH - |pending|, n);
    hide Measure, MeasureAll, PathOk;
    RefusedHere(h, payload, pending, Container(id));
  }

  method RememberExtent(h: Heap, memo: Memo, value: Value, e: Extent, ghost depth: nat)
    requires Closed(h) && Known(h, value) && !value.Plain? && depth <= 65
    requires memo.Valid() && MemoSound(h, memo.table) && Measure(h, value, MAX_DEPTH - depth) == Some(e)
    modifies memo
    ensures memo.Valid() && MemoSound(h, memo.table)
  {
    hide *;
    ghost var table := memo.table;
    memo.Remember(value.id, e);
    RememberSound(h, table, memo.table, value, e, depth);
  }

  method UseMemo(h: Heap, ghost payload: Value, t: Progress, value: Value, memo: Memo) returns (r: Progress, move: Move)
    requires Closed(h) && Known(h, payload) && Arriving(h, payload, t, value)
    requires memo.Valid() && MemoSound(h, memo.table) && !value.Plain? && value.id in memo.table
    modifies memo
    ensures memo.Valid() && MemoSound(h, memo.table)
    ensures move.Refuse? ==> !Acceptable(h, payload)
    ensures !move.Descend?
    ensures move.Finish? ==> Leaving(h, payload, r, value, Extent(move.height, move.size)) && r.spent > t.spent
  {
    hide *;
    Here(h, payload, t, value);
    var e := memo.table[value.id];
    MemoTells(h, memo.table, value, |t.pending|);
    if value.Container? && |t.pending| + e.height > MAX_DEPTH {
      RefusedHere(h, payload, t.pending, value);
      return t, Refuse;
    }
    memo.Touch(value.id);
    var ok;
    r, ok := Charge(t, e.size);
    if !ok {
      RefusedHere(h, payload, t.pending, value);
      return r, Refuse;
    }
    Finished(h, payload, t, r, value, e);
    return r, Finish(e.height, e.size);
  }

  method OpenContainer(h: Heap, ghost payload: Value, t: Progress, value: Value, memo: Memo)
    returns (r: Progress, move: Move)
    requires Closed(h) && Known(h, payload) && Arriving(h, payload, t, value)
    requires memo.Valid() && MemoSound(h, memo.table)
    requires value.Container? && |t.pending| <= 64 && value.id !in t.active
    modifies memo
    ensures memo.Valid() && MemoSound(h, memo.table)
    ensures move.Refuse? ==> !Acceptable(h, payload)
    ensures move.Descend? ==> Arriving(h, payload, r, move.child) && r.spent > t.spent
    ensures move.Finish? ==> Leaving(h, payload, r, value, Extent(move.height, move.size)) && r.spent > t.spent
  {
    hide *;
    Here(h, payload, t, value);
    var charged, ok := Charge(t, 2);
    if !ok {
      NoBrackets(h, payload, t, value);
      return charged, Refuse;
    }
    var children := Kids(h, value.id);
    if |children| == 0 {
      var e := Extent(0, 2);
      EmptyContainer(h, value, MAX_DEPTH - |t.pending|);
      Finished(h, payload, t, charged, value, e);
      RememberExtent(h, memo, value, e, |t.pending|);
      return charged, Finish(0, 2);
    }
    if h.containers[value.id].Mapping? && !children[0].Text? {
      NoName(h, payload, t.pending, value.id, 1);
      return charged, Refuse;
    }
    Opened(h, payload, t, value);
    var frame := Frame(value.id, |t.pending|, 1, 2, 0);
    return Progress(t.pending + [frame], t.active + {value.id}, charged.spent), Descend(children[0]);
  }

  method MeasureLeaf(h: Heap, ghost payload: Value, t: Progress, value: Value, memo: Memo)
    returns (r: Progress, move: Move)
    requires Closed(h) && Known(h, payload) && Arriving(h, payload, t, value)
    requires memo.Valid() && MemoSound(h, memo.table) && !value.Container?
    modifies memo
    ensures memo.Valid() && MemoSound(h, memo.table)
    ensures move.Refuse? ==> !Acceptable(h, payload)
    ensures !move.Descend?
    ensures move.Finish? ==> Leaving(h, payload, r, value, Extent(move.height, move.size)) && r.spent > t.spent
  {
    hide *;
    Here(h, payload, t, value);
    var bytes := if value.Text? then TextBytes(h.texts[value.id]) else ScalarBytes(value.scalar, h.digitLimit);
    LeafMeasure(h, value, MAX_DEPTH - |t.pending|);
    if bytes.None? {
      RefusedHere(h, payload, t.pending, value);
      return t, Refuse;
    }
    var ok;
    r, ok := Charge(t, bytes.value);
    if !ok {
      RefusedHere(h, payload, t.pending, value);
      return r, Refuse;
    }
    RoomOnlyLimitsHeight(h, value, MAX_DEPTH - |t.pending|, -1);
    Finished(h, payload, t, r, value, Extent(-1, bytes.value));
    if value.Text? {
      RememberExtent(h, memo, value, Extent(-1, bytes.value), |t.pending|);
    }
    return r, Finish(-1, bytes.value);
  }

  /** Hands a finished value to the frame waiting for it, which moves to its next child or is finished itself. */
  method Return(h: Heap, ghost payload: Value, t: Progress, ghost done: Value, height: int, size: nat, memo: Memo)
    returns (r: Progress, move: Move)
    requires Closed(h) && Known(h, payload) && Leaving(h, payload, t, done, Extent(height, size)) && t.pending != []
    requires memo.Valid() && MemoSound(h, memo.table)
    modifies memo
    ensures memo.Valid() && MemoSound(h, memo.table)
    ensures move.Refuse? ==> !Acceptable(h, payload)
    ensures move.Descend? ==> Arriving(h, payload, r, move.child) && r.spent > t.spent
    ensures move.Finish? ==> Leaving(h, payload, r, Container(t.pending[|t.pending| - 1].id),
            Extent(move.height, move.size)) &&
                             |r.pending| < |t.pending| && r.spent == t.spent
  {
    hide *;
    TopFrame(h, payload, t, done, Extent(height, size));
    var n := |t.pending| - 1;
    var parent := t.pending[n];
    var children := Kids(h, parent.id);
    var grown := if parent.height < height + 1 then height + 1 else parent.height;
    if parent.next == |children| {
      Closing(h, payload, t, done, Extent(height, size));
      RememberExtent(h, memo, Container(parent.id), Extent(grown, parent.size + size), n);
      return Progress(t.pending[..n], t.active - {parent.id}, t.spent), Finish(grown, parent.size + size);
    }
    if h.containers[parent.id].Mapping? && parent.next % 2 == 0 && !children[parent.next].Text? {
      NoName(h, payload, t.pending[..n], parent.id, parent.next + 1);
      return t, Refuse;
    }
    var charged, ok := Charge(t, 1);
    if !ok {
      NoSeparator(h, payload, t, done, Extent(height, size));
      return charged, Refuse;
    }
    Moving(h, payload, t, done, Extent(height, size));
    var waiting := Frame(parent.id, n, parent.next + 1, parent.size + size + 1, grown);
    return Progress(t.pending[n := waiting], t.active, charged.spent), Descend(children[parent.next]);
  }

  method ValidateJsonDepth(h: Heap, payload: Value) returns (verdict: Verdict)
    requires Closed(h) && Known(h, payload)
    ensures verdict.Accepted? <==> Acceptable(h, payload)
    ensures verdict.Accepted? ==> verdict.spent == Measure(h, payload, MAX_DEPTH).value.size
  {
    hide *;
    var memo := new Memo();
    NothingRemembered(h);
    Arrived(h, payload);
    var t := Progress([], {}, 0);
    var value := payload;
    while true
      invariant Arriving(h, payload, t, value)
      invariant memo.Valid() && MemoSound(h, memo.table) && fresh(memo)
      decreases MAX_MESSAGE_BYTES - t.spent
    {
      Here(h, payload, t, value);
      TooDeep(|t.pending|);
      if value.Container? && (|t.pending| > MAX_DEPTH || value.id in t.active) {
        RefusedHere(h, payload, t.pending, value);
        return Rejected;
      }
      ghost var before := t.spent;
      var move;
      if !value.Plain? && value.id in memo.table {
        t, move := UseMemo(h, payload, t, value, memo);
      } else if value.Container? {
        t, move := OpenContainer(h, payload, t, value, memo);
      } else {
        t, move := MeasureLeaf(h, payload, t, value, memo);
      }
      ghost var done := value;
      while move.Finish? && t.pending != []
        invariant memo.Valid() && MemoSound(h, memo.table) && fresh(memo)
        invariant move.Refuse? ==> !Acceptable(h, payload)
        invariant move.Descend? ==> Arriving(h, payload, t, move.child) && t.spent > before
        invariant move.Finish? ==> Leaving(h, payload, t, done, Extent(move.height, move.size)) && t.spent > before
        decreases move.Finish?, |t.pending|
      {
        ghost var finished := Container(t.pending[|t.pending| - 1].id);
        t, move := Return(h, payload, t, done, move.height, move.size, memo);
        done := finished;
      }
      if move.Refuse? { return Rejected; }
      if move.Finish? {
        Done(h, payload, t, done, Extent(move.height, move.size));
        return Accepted(t.spent);
      }
      value := move.child;
    }
  }

  lemma NothingRemembered(h: Heap)
    ensures MemoSound(h, map[])
  {
  }

  lemma Arrived(h: Heap, payload: Value)
    requires Closed(h) && Known(h, payload)
    ensures Arriving(h, payload, Progress([], {}, 0), payload)
  {
  }

  lemma TooDeep(depth: nat)
    ensures depth > MAX_DEPTH <==> depth > 64
  {
  }

  lemma Done(h: Heap, payload: Value, t: Progress, value: Value, e: Extent)
    requires Closed(h) && Known(h, payload) && Leaving(h, payload, t, value, e) && t.pending == []
    ensures Acceptable(h, payload) && t.spent == e.size && Measure(h, payload, MAX_DEPTH) == Some(e)
  {
    hide Measure;
  }
}
