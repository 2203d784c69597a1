/** The blink list as the fish program holds it: nodes linked through a fixed
    array whose slots count as free while their location is 0 (fish/blink.S,
    fish/fish.c). Pointers to nodes are slot numbers. */
module BlinkList {
  import opened Bytes
  import opened Helpers
  import opened Blink

  datatype Node = Node(blink: Blink, next: Option<nat>)

  function ZeroNode(): Node {
    Node(Blink(0, 0, 0, 0, 0, 0, 0), None)
  }

  predicate InRange(node: seq<Node>, list: seq<nat>) {
    forall i :: 0 <= i < |list| ==> list[i] < |node|
  }

  /** Following the links from `p` passes the slots of `list` and then ends. */
  ghost predicate Linked(node: seq<Node>, p: Option<nat>, list: seq<nat>)
    decreases |list|
  {
    if list == [] then p == None
    else p == Some(list[0]) && list[0] < |node| && Linked(node, node[list[0]].next, list[1..])
  }

  predicate Distinct(list: seq<nat>)
    decreases |list|
  {
    list == [] || (list[0] !in list[1..] && Distinct(list[1..]))
  }

  /** Exactly the slots of `list` have a location other than 0. */
  predicate Listed(node: seq<Node>, list: seq<nat>) {
    forall s :: 0 <= s < |node| ==> (node[s].blink.location != 0 <==> s in list)
  }

  predicate OnScreen(node: seq<Node>) {
    forall s :: 0 <= s < |node| ==> node[s].blink.location < CELLS
  }

  /** The slots of `list`, in this order, are the linked list: it ends, no slot
      stands in it twice, and its slots are those with a location other than 0. */
  ghost predicate Shape(node: seq<Node>, head: Option<nat>, list: seq<nat>) {
    && |node| == CELLS && InRange(node, list) && Linked(node, head, list)
    && Distinct(list) && Listed(node, list) && OnScreen(node)
  }

  /** The blinks along the list. */
  function Blinks(node: seq<Node>, list: seq<nat>): (r: seq<Blink>)
    requires InRange(node, list)
    ensures |r| == |list|
  {
    seq(|list|, i requires 0 <= i < |list| => node[list[i]].blink)
  }

  /** The i-th slot, or none past the end. */
  function At(list: seq<nat>, i: nat): Option<nat> {
    if i < |list| then Some(list[i]) else None
  }

  /** mp1_malloc from slot i on: the first slot with location 0. */
  function FirstFree(node: seq<Node>, i: nat): (r: Option<nat>)
    requires i <= |node|
    ensures r.Some? ==> i <= r.value < |node| && node[r.value].blink.location == 0
    ensures r.Some? ==> forall s :: i <= s < r.value ==> node[s].blink.location != 0
    ensures r.None? ==> forall s :: i <= s < |node| ==> node[s].blink.location != 0
    decreases |node| - i
  {
    if i == |node| then None else if node[i].blink.location == 0 then Some(i) else FirstFree(node, i + 1)
  }

  /** What ADD does to the nodes and the head. */
  function AddNode(node: seq<Node>, head: Option<nat>, b: Blink): (seq<Node>, Option<nat>, bool)
  {
    var slot := FirstFree(node, 0);
    if b.location >= CELLS || slot.None? then (node, head, false)
    else (node[slot.value := Node(Fresh(b), head)], slot, true)
  }

  /** Some slot holds a blink at the location; at location 0 a slot is free. */
  predicate Present(node: seq<Node>, location: nat) {
    location != 0 && exists s :: 0 <= s < |node| && node[s].blink.location == location
  }

  lemma PresentIff(node: seq<Node>, head: Option<nat>, list: seq<nat>, location: nat)
    requires Shape(node, head, list)
    ensures Present(node, location) <==> FirstAt(Blinks(node, list), location) < |list|
  {
    var k := FirstAt(Blinks(node, list), location);
    if k < |list| {
      assert Blinks(node, list)[k].location == location && list[k] in list;
    } else {
      forall s | 0 <= s < |node| && s in list ensures node[s].blink.location != location {
        var i :| 0 <= i < |list| && list[i] == s;
        assert Blinks(node, list)[i].location != location;
      }
    }
  }

  lemma PresentBoth(s: State, node: seq<Node>, head: Option<nat>, list: seq<nat>, from: nat, to: nat)
    requires Shape(node, head, list) && s.Valid() && s.list == Blinks(node, list)
    ensures Sync(s, from, to).1 <==> Present(node, from) && Present(node, to)
  {
    PresentIff(node, head, list, from);
    PresentIff(node, head, list, to);
  }

  function FreeSlots(node: seq<Node>): set<nat> {
    set s: nat | s < |node| && node[s].blink.location == 0
  }

  function Upto(n: nat): (r: set<nat>)
    ensures |r| == n && forall s: nat :: s in r <==> s < n
  {
    if n == 0 then {} else Upto(n - 1) + {n - 1}
  }

  function Slots(list: seq<nat>): set<nat> {
    set s | s in list
  }

  lemma {:induction false} DistinctSize(list: seq<nat>)
    requires Distinct(list)
    ensures |Slots(list)| == |list|
    decreases |list|
  {
    if list != [] {
      DistinctSize(list[1..]);
      assert Slots(list) == {list[0]} + Slots(list[1..]);
    }
  }

  /** Free slots and listed slots are the whole array. */
  lemma SlotsAreCounted(node: seq<Node>, head: Option<nat>, list: seq<nat>)
    requires Shape(node, head, list)
    ensures |FreeSlots(node)| + |list| == CELLS
    ensures FirstFree(node, 0).None? <==> |list| == CELLS
  {
    FreeAndUsed(node, list);
    NoneFreeIff(node);
  }

  lemma FreeAndUsed(node: seq<Node>, list: seq<nat>)
    requires InRange(node, list) && Distinct(list) && Listed(node, list)
    ensures |FreeSlots(node)| + |list| == |node|
  {
    DistinctSize(list);
    var free, used := FreeSlots(node), Slots(list);
    assert free !! used && free + used == Upto(|node|);
  }

  lemma NoneFreeIff(node: seq<Node>)
    ensures FirstFree(node, 0).None? <==> |FreeSlots(node)| == 0
  {
    if FirstFree(node, 0).Some? {
      assert FirstFree(node, 0).value in FreeSlots(node);
    } else {
      assert FreeSlots(node) == {};
    }
  }

  /** Links off the list do not matter to it. */
  lemma {:induction false} LinkedFrame(node: seq<Node>, node': seq<Node>, p: Option<nat>, list: seq<nat>)
    requires Linked(node, p, list) && |node'| == |node|
    requires forall s :: s in list && s < |node| ==> node'[s].next == node[s].next
    ensures Linked(node', p, list)
    decreases |list|
  {
    if list != [] {
      assert list[0] in list;
      assert forall s :: s in list[1..] ==> s in list;
      LinkedFrame(node, node', node[list[0]].next, list[1..]);
    }
  }

  /** One link further along a list whose links stay. */
  lemma RestLinked(node: seq<Node>, node': seq<Node>, slot: nat, list: seq<nat>, k: nat)
    requires k < |list| && Linked(node, Some(slot), list[k..]) && |node'| == |node|
    requires forall s :: 0 <= s < |node| ==> node'[s].next == node[s].next
    ensures slot < |node| && Linked(node', node'[slot].next, list[k + 1..])
  {
    assert list[k..][1..] == list[k + 1..];
    LinkedFrame(node, node', node[slot].next, list[k + 1..]);
  }

  /** Pushing a node with a location on the list. */
  lemma AddShape(node: seq<Node>, head: Option<nat>, list: seq<nat>, b: Blink)
    requires Shape(node, head, list) && b.location != 0 && AddNode(node, head, b).2
    ensures var r, slot := AddNode(node, head, b), FirstFree(node, 0).value;
            Shape(r.0, r.1, [slot] + list) && Blinks(r.0, [slot] + list) == [Fresh(b)] + Blinks(node, list)
  {
    var r, slot := AddNode(node, head, b), FirstFree(node, 0).value;
    PushShape(node, r.0, head, list, slot, Fresh(b));
  }

  lemma PushShape(node: seq<Node>, node': seq<Node>, head: Option<nat>, list: seq<nat>, slot: nat, b: Blink)
    requires Shape(node, head, list) && slot < |node| && node[slot].blink.location == 0
    requires 0 < b.location < CELLS && node' == node[slot := Node(b, head)]
    ensures Shape(node', Some(slot), [slot] + list) && Blinks(node', [slot] + list) == [b] + Blinks(node, list)
  {
    var list' := [slot] + list;
    assert list'[1..] == list;
    LinkedFrame(node, node', head, list);
    assert forall s :: s in list' <==> s == slot || s in list;
    assert forall i :: 0 < i < |list'| ==> list'[i] == list[i - 1] && list[i - 1] in list;
  }

  /** The slot that heads a well-formed list has a location. */
  lemma HeadHasLocation(node: seq<Node>, slot: nat, list: seq<nat>)
    requires Shape(node, Some(slot), list)
    ensures slot < |node| && node[slot].blink.location != 0
  {
    assert list[0] in list;
  }

  /** ADD keeps the list well formed exactly when the location is not 0. */
  lemma AddKeepsShapeIff(node: seq<Node>, head: Option<nat>, list: seq<nat>, b: Blink)
    requires Shape(node, head, list) && AddNode(node, head, b).2
    ensures var r := AddNode(node, head, b);
            (exists list' :: Shape(r.0, r.1, list')) <==> b.location != 0
  {
    var r, slot := AddNode(node, head, b), FirstFree(node, 0).value;
    forall list' | Shape(r.0, r.1, list') ensures b.location != 0 {
      HeadHasLocation(r.0, slot, list');
    }
    if b.location != 0 {
      AddShape(node, head, list, b);
      assert Shape(r.0, r.1, [slot] + list);
    }
  }

  /** The node k links further on. */
  function Nth(node: seq<Node>, p: Option<nat>, k: nat): Option<nat>
    decreases k
  {
    if k == 0 || p.None? || p.value >= |node| then p else Nth(node, node[p.value].next, k - 1)
  }

  lemma {:induction false} SelfLinkNeverEnds(node: seq<Node>, slot: nat, k: nat)
    requires slot < |node| && node[slot].next == Some(slot)
    ensures Nth(node, Some(slot), k) == Some(slot)
  {
    if k > 0 {
      SelfLinkNeverEnds(node, slot, k - 1);
    }
  }

  /** Why location 0 must not be added: the next ADD takes the same slot again and
      links it to itself, so a walk along the list never ends. */
  lemma AddAfterZeroLoops(node: seq<Node>, head: Option<nat>, list: seq<nat>, b: Blink, c: Blink, k: nat)
    requires Shape(node, head, list) && AddNode(node, head, b).2 && b.location == 0 && c.location < CELLS
    ensures var r := AddNode(node, head, b); var q := AddNode(r.0, r.1, c);
            q.2 && q.1.Some? && Nth(q.0, q.1, k) == q.1
  {
    var r := AddNode(node, head, b);
    var slot := FirstFree(node, 0).value;
    FirstFreeIs(r.0, 0, slot);
    var q := AddNode(r.0, r.1, c);
    SelfLinkNeverEnds(q.0, slot, k);
  }

  lemma {:induction false} FirstFreeIs(node: seq<Node>, i: nat, slot: nat)
    requires i <= slot < |node| && node[slot].blink.location == 0
    requires forall s :: i <= s < slot ==> node[s].blink.location != 0
    ensures FirstFree(node, i) == Some(slot)
    decreases slot - i
  {
    if i < slot {
      FirstFreeIs(node, i + 1, slot);
    }
  }

  /** The slots without the i-th. */
  function Unlinked(list: seq<nat>, i: nat): seq<nat>
    requires i < |list|
  {
    list[..i] + list[i + 1..]
  }

  /** What REMOVE does to the nodes: the link before is led past the node, which
      is zeroed. */
  function RemoveNode(node: seq<Node>, list: seq<nat>, i: nat): (r: seq<Node>)
    requires i < |list| && InRange(node, list)
    ensures |r| == |node|
  {
    var next := node[list[i]].next;
    var linked := if i == 0 then node else node[list[i - 1] := node[list[i - 1]].(next := next)];
    linked[list[i] := ZeroNode()]
  }

  /** The head after it. */
  function RemoveHead(node: seq<Node>, head: Option<nat>, list: seq<nat>, i: nat): Option<nat>
    requires i < |list| && InRange(node, list)
  {
    if i == 0 then node[list[0]].next else head
  }

  lemma {:induction false} DistinctAt(list: seq<nat>, i: nat, j: nat)
    requires Distinct(list) && i < j < |list|
    ensures list[i] != list[j]
    decreases i
  {
    if i == 0 {
      assert list[1..][j - 1] == list[j];
    } else {
      DistinctAt(list[1..], i - 1, j - 1);
    }
  }

  lemma SamePlace(list: seq<nat>, i: nat, j: nat)
    requires Distinct(list) && i < |list| && j < |list| && list[i] == list[j]
    ensures i == j
  {
    if i < j {
      DistinctAt(list, i, j);
    } else if j < i {
      DistinctAt(list, j, i);
    }
  }

  lemma {:induction false} UnlinkedDistinct(list: seq<nat>, i: nat)
    requires Distinct(list) && i < |list|
    ensures Distinct(Unlinked(list, i)) && list[i] !in Unlinked(list, i)
    ensures forall s :: s in list && s != list[i] ==> s in Unlinked(list, i)
    ensures forall s :: s in Unlinked(list, i) ==> s in list
    decreases i
  {
    assert list == [list[0]] + list[1..];
    if i == 0 {
      assert Unlinked(list, 0) == list[1..];
    } else {
      UnlinkedDistinct(list[1..], i - 1);
      assert Unlinked(list, i) == [list[0]] + Unlinked(list[1..], i - 1);
      DistinctAt(list, 0, i);
    }
  }

  /** Leading the link before the i-th slot past it takes that slot, and only
      that one, out of the list. */
  lemma {:induction false} Relinked(node: seq<Node>, node': seq<Node>, p: Option<nat>, list: seq<nat>, i: nat)
    requires Linked(node, p, list) && Distinct(list) && i < |list| && InRange(node, list) && |node'| == |node|
    requires i > 0 ==> node'[list[i - 1]].next == node[list[i]].next
    requires forall s :: s in list && s < |node| && s != list[i] && (i > 0 ==> s != list[i - 1])
               ==> node'[s].next == node[s].next
    ensures Linked(node', RemoveHead(node, p, list, i), Unlinked(list, i))
    decreases i
  {
    var rest := list[1..];
    assert list == [list[0]] + rest;
    if i == 0 {
      assert Unlinked(list, 0) == rest;
      LinkedFrame(node, node', node[list[0]].next, rest);
    } else {
      assert Unlinked(list, i) == [list[0]] + Unlinked(rest, i - 1);
      assert rest[i - 1] == list[i] && InRange(node, rest);
      if i > 1 {
        assert rest[i - 2] == list[i - 1];
        DistinctAt(list, 0, i - 1);
      }
      DistinctAt(list, 0, i);
      Relinked(node, node', node[list[0]].next, rest, i - 1);
      assert Unlinked(list, i)[1..] == Unlinked(rest, i - 1);
    }
  }

  lemma RemoveLinks(node: seq<Node>, head: Option<nat>, list: seq<nat>, i: nat)
    requires Shape(node, head, list) && i < |list|
    ensures Linked(RemoveNode(node, list, i), RemoveHead(node, head, list, i), Unlinked(list, i))
  {
    if i > 0 {
      DistinctAt(list, i - 1, i);
    }
    Relinked(node, RemoveNode(node, list, i), head, list, i);
  }

  lemma RemoveBlinks(node: seq<Node>, head: Option<nat>, list: seq<nat>, i: nat)
    requires Shape(node, head, list) && i < |list|
    ensures var node', list' := RemoveNode(node, list, i), Unlinked(list, i);
            InRange(node', list') && Blinks(node', list') == Without(Blinks(node, list), i)
  {
    var node', list' := RemoveNode(node, list, i), Unlinked(list, i);
    forall k | 0 <= k < |list'| ensures list'[k] < |node| && node'[list'[k]].blink == node[list'[k]].blink {
      var j := if k < i then k else k + 1;
      assert list'[k] == list[j];
      if j < i { DistinctAt(list, j, i); } else { DistinctAt(list, i, j); }
    }
  }

  lemma RemoveShape(node: seq<Node>, head: Option<nat>, list: seq<nat>, i: nat)
    requires Shape(node, head, list) && i < |list|
    ensures Shape(RemoveNode(node, list, i), RemoveHead(node, head, list, i), Unlinked(list, i))
  {
    RemoveLinks(node, head, list, i);
    RemoveBlinks(node, head, list, i);
    UnlinkedDistinct(list, i);
    var node' := RemoveNode(node, list, i);
    forall s | 0 <= s < |node'|
      ensures node'[s].blink == if s == list[i] then ZeroNode().blink else node[s].blink {
    }
  }

  /** Rewriting the blink of a listed node, its location kept. */
  lemma UpdateShape(node: seq<Node>, head: Option<nat>, list: seq<nat>, i: nat, b: Blink)
    requires Shape(node, head, list) && i < |list| && b.location == node[list[i]].blink.location
    ensures var node' := node[list[i] := node[list[i]].(blink := b)];
            Shape(node', head, list) && Blinks(node', list) == Blinks(node, list)[i := b]
  {
    var node' := node[list[i] := node[list[i]].(blink := b)];
    assert list[i] in list;
    LinkedFrame(node, node', head, list);
    forall k | 0 <= k < |list| && k != i ensures list[k] != list[i] {
      if k < i { DistinctAt(list, k, i); } else { DistinctAt(list, i, k); }
    }
  }

  /** The program's array, list head and view of video memory. */
  class Blinker {
    const node: array<Node>
    const vmem: array<byte>
    var head: Option<nat>
    ghost var list: seq<nat>

    ghost predicate Valid()
      reads this, node, vmem
    {
      vmem.Length >= 2 * CELLS && Shape(node[..], head, list)
    }

    ghost function Abs(): (s: State)
      requires Valid()
      reads this, node, vmem
      ensures s.Valid()
    {
      State(Blinks(node[..], list), vmem[..])
    }

    constructor (vmem: array<byte>)
      requires vmem.Length >= 2 * CELLS
      ensures Valid() && fresh(node) && this.vmem == vmem
      ensures Abs() == State([], vmem[..])
    {
      node := new Node[CELLS](_ => ZeroNode());
      this.vmem := vmem;
      head := None;
      list := [];
    }

    method Malloc() returns (slot: Option<nat>)
      requires node.Length == CELLS
      ensures slot == FirstFree(node[..], 0)
    {
      var i := 0;
      while i < CELLS
        invariant i <= CELLS && FirstFree(node[..], 0) == FirstFree(node[..], i)
      {
        if node[i].blink.location == 0 {
          return Some(i);
        }
        i := i + 1;
      }
      return None;
    }

    method Free(slot: nat)
      requires slot < node.Length
      modifies node
      ensures node[..] == old(node[..])[slot := ZeroNode()]
    {
      node[slot] := ZeroNode();
    }

    method PokeAt(location: nat, c: byte)
      requires vmem.Length >= 2 * CELLS && location < CELLS
      modifies vmem
      ensures vmem[..] == Poke(old(vmem[..]), location, c)
    {
      vmem[2 * location] := c;
    }

    method IoctlAdd(user: Blink) returns (ok: bool)
      requires Valid()
      modifies this, node, vmem
      ensures (node[..], head, ok) == AddNode(old(node[..]), old(head), user)
      ensures vmem[..] == if ok then Poke(old(vmem[..]), user.location, user.onChar) else old(vmem[..])
      ensures ok <==> user.location < CELLS && exists s :: 0 <= s < CELLS && old(node[..])[s].blink.location == 0
      ensures user.location != 0 ==> Valid() && (Abs(), ok) == Add(old(Abs()), user)
    {
      ghost var nodes := node[..];
      SlotsAreCounted(nodes, head, list);
      if user.location >= CELLS {
        return false;
      }
      var b := user.(status := 1);
      b := b.(countdown := b.onLength);
      var slot := Malloc();
      if slot == None {
        return false;
      }
      if user.location != 0 {
        AddShape(nodes, head, list, user);
        list := [slot.value] + list;
      }
      node[slot.value] := Node(b, head);
      head := slot;
      assert node[..] == AddNode(nodes, old(head), user).0;
      PokeAt(user.location, user.onChar);
      return true;
    }

    /** mp1_find_helper: the first node whose location is the low 16 bits of the argument. */
    method FindHelper(arg: nat) returns (p: Option<nat>)
      requires Valid()
      ensures p == At(list, FirstAt(Abs().list, arg % HALF))
    {
      p := head;
      ghost var k, all := 0, Abs().list;
      while p != None
        invariant k <= |list| && Linked(node[..], p, list[k..])
        invariant FirstAt(all, arg % HALF) == k + FirstAt(all[k..], arg % HALF)
        decreases |list| - k
      {
        if node[p.value].blink.location == arg % HALF {
          return;
        }
        p := node[p.value].next;
        assert list[k..][1..] == list[k + 1..] && all[k..][1..] == all[k + 1..];
        k := k + 1;
      }
    }

    method IoctlFind(location: nat) returns (found: Option<Blink>)
      requires Valid() && location < HALF
      ensures found == Lookup(Abs().list, location) && (found.Some? <==> Present(node[..], location))
    {
      PresentIff(node[..], head, list, location);
      var p := FindHelper(location);
      found := if p == None then None else Some(node[p.value].blink);
    }

    method IoctlRemove(arg: nat) returns (ok: bool)
      requires Valid()
      modifies this, node
      ensures Valid() && (Abs(), ok) == Remove(old(Abs()), arg % HALF)
      ensures ok <==> Present(old(node[..]), arg % HALF)
    {
      PresentIff(node[..], head, list, arg % HALF);
      var p := FindHelper(arg);
      if p == None {
        return false;
      }
      ghost var i, nodes := FirstAt(Abs().list, arg % HALF), node[..];
      RemoveShape(nodes, head, list, i);
      RemoveBlinks(nodes, head, list, i);
      Unlink(p.value, i);
      list := Unlinked(list, i);
      return true;
    }

    /** The walk for the link that leads to the node, and the relinking. */
    method Unlink(slot: nat, ghost i: nat)
      requires Valid() && i < |list| && list[i] == slot
      modifies this`head, node
      ensures node[..] == RemoveNode(old(node[..]), list, i) && head == RemoveHead(old(node[..]), old(head), list, i)
    {
      if head == Some(slot) {
        SamePlace(list, 0, i);
        head := node[slot].next;
      } else {
        var q := head.value;
        ghost var k := 0;
        while node[q].next != Some(slot)
          invariant k < i && q == list[k] && Linked(node[..], Some(q), list[k..])
          decreases i - k
        {
          assert list[k..][1..] == list[k + 1..];
          q := node[q].next.value;
          k := k + 1;
        }
        assert list[k..][1..] == list[k + 1..];
        SamePlace(list, k + 1, i);
        node[q] := node[q].(next := node[slot].next);
      }
      Free(slot);
    }

    /** The fields of the k-th node of the list but its link and its location. */
    method SetBlink(slot: nat, ghost k: nat, b: Blink)
      requires Valid() && k < |list| && list[k] == slot && b.location == node[slot].blink.location
      modifies node
      ensures Valid() && Abs() == State(old(Abs()).list[k := b], vmem[..])
      ensures forall s :: 0 <= s < node.Length ==> node[s].next == old(node[s].next)
    {
      UpdateShape(node[..], head, list, k, b);
      ghost var nodes := node[..];
      node[slot] := node[slot].(blink := b);
      assert node[..] == nodes[slot := nodes[slot].(blink := b)];
    }

    method IoctlSync(arg: nat) returns (ok: bool)
      requires Valid()
      modifies node, vmem
      ensures Valid() && (Abs(), ok) == Sync(old(Abs()), (arg / HALF) % HALF, arg % HALF)
      ensures ok <==> Present(old(node[..]), (arg / HALF) % HALF) && Present(old(node[..]), arg % HALF)
    {
      PresentBoth(Abs(), node[..], head, list, (arg / HALF) % HALF, arg % HALF);
      var p := FindHelper(arg / HALF);
      if p == None {
        return false;
      }
      var q := FindHelper(arg % HALF);
      if q == None {
        return false;
      }
      ghost var all := Abs().list;
      CopyTiming(p.value, q.value, FirstAt(all, (arg / HALF) % HALF), FirstAt(all, arg % HALF));
      return true;
    }

    /** The copy of the four fields, and the redraw. */
    method CopyTiming(from: nat, to: nat, ghost i: nat, ghost j: nat)
      requires Valid() && i < |list| && list[i] == from && j < |list| && list[j] == to
      modifies node, vmem
      ensures Valid()
      ensures var all := old(Abs()).list;
              Abs() == State(all[j := Timed(all[j], all[i])], Poke(old(vmem[..]), all[j].location, all[j].offChar))
    {
      var a, b := node[from].blink, node[to].blink;
      SetBlink(to, j, b.(onLength := a.onLength, offLength := a.offLength,
                         countdown := a.countdown, status := a.status));
      PokeAt(b.location, b.offChar);
    }

    /** The body of the loop in mp1_rtc_tasklet. */
    method TickNode(slot: nat, ghost k: nat)
      requires Valid() && k < |list| && list[k] == slot
      modifies node, vmem
      ensures Valid() && Abs() == State(old(Abs()).list[k := TickOne(old(Abs()).list[k])],
                                        TickDraws(old(vmem[..]), old(Abs()).list[k]))
      ensures forall s :: 0 <= s < node.Length ==> node[s].next == old(node[s].next)
    {
      var b := node[slot].blink;
      var d := Decremented(b.countdown);
      if d > 0 {
        b := b.(countdown := d);
      } else if b.status % 2 == 1 {
        PokeAt(b.location, b.offChar);
        b := b.(countdown := b.offLength, status := b.status - 1);
      } else {
        PokeAt(b.location, b.onChar);
        b := b.(countdown := b.onLength, status := b.status + 1);
      }
      SetBlink(slot, k, b);
    }

    /** mp1_rtc_tasklet. */
    method RtcTasklet()
      requires Valid()
      modifies node, vmem
      ensures Valid() && Abs() == Tick(old(Abs()))
    {
      var p := head;
      ghost var k, before := 0, Abs();
      while p != None
        invariant Valid() && k <= |list| && Linked(node[..], p, list[k..])
        invariant |before.list| == |list| && before.Valid() && Abs() == TickFirst(before, k)
        decreases |list| - k
      {
        ghost var nodes := node[..];
        TickNode(p.value, k);
        RestLinked(nodes, node[..], p.value, list, k);
        p := node[p.value].next;
        k := k + 1;
      }
    }

    /** One command of the program, through the calling convention of mp1_ioctl. */
    method Perform(e: Event)
      requires Valid() && Callable(e)
      modifies this, node, vmem
      ensures Valid() && Abs() == Step(old(Abs()), e)
    {
      match e {
        case AddOne(b) => var _ := IoctlAdd(b);
        case RemoveAt(l) => var _ := IoctlRemove(l);
        case SyncTo(from, to) =>
          PackedWords(from, to);
          var _ := IoctlSync(from * HALF + to);
        case TickAll => RtcTasklet();
      }
    }

    /** Any run of commands with locations in words, nothing added at location 0,
        keeps the links well formed and does what the list machine does. */
    method Serve(es: seq<Event>)
      requires Valid() && forall i :: 0 <= i < |es| ==> Callable(es[i])
      modifies this, node, vmem
      ensures Valid() && Abs() == Run(old(Abs()), es)
    {
      ghost var before := Abs();
      var k := 0;
      while k < |es|
        invariant k <= |es| && Valid() && Run(Abs(), es[k..]) == Run(before, es)
      {
        assert es[k..][1..] == es[k + 1..];
        Perform(es[k]);
        k := k + 1;
      }
    }
  }

  /** A command the program may give: words for locations, and no ADD at 0. */
  predicate Callable(e: Event) {
    match e
    case AddOne(b) => b.location != 0
    case RemoveAt(l) => l < HALF
    case SyncTo(from, to) => from < HALF && to < HALF
    case TickAll => true
  }

  lemma PackedWords(hi: nat, lo: nat)
    requires hi < HALF && lo < HALF
    ensures ((hi * HALF + lo) / HALF) % HALF == hi && (hi * HALF + lo) % HALF == lo
  {
  }
}
