/** The blinking characters of the fish program as a list, the most recently
    added first (fish/blink.S). Fields of a blink are 16-bit words. */
module Blink {
  import opened Bytes
  import opened Helpers

  /** Cells of the screen, and slots of the program's array. */
  const CELLS: nat := 2000
  const HALF: nat := 0x1_0000

  datatype Blink = Blink(location: nat, onChar: byte, offChar: byte,
                         onLength: nat, offLength: nat, countdown: nat, status: nat)

  /** The list and the video memory, two bytes a cell. */
  datatype State = State(list: seq<Blink>, vmem: seq<byte>) {
    predicate Valid() {
      |vmem| >= 2 * CELLS && forall i :: 0 <= i < |list| ==> list[i].location < CELLS
    }
  }

  /** mp1_poke: one character; the attribute byte stays. */
  function Poke(vmem: seq<byte>, location: nat, c: byte): (r: seq<byte>)
    requires |vmem| >= 2 * CELLS && location < CELLS
    ensures |r| == |vmem|
  {
    vmem[2 * location := c]
  }

  /** Index of the first blink at a location, or the length of the list. */
  function FirstAt(list: seq<Blink>, location: nat): (i: nat)
    ensures i <= |list| && (i < |list| ==> list[i].location == location)
    ensures forall k :: 0 <= k < i ==> list[k].location != location
  {
    if list == [] || list[0].location == location then 0 else 1 + FirstAt(list[1..], location)
  }

  /** A blink as ADD stores it: on, with the on time to go. */
  function Fresh(b: Blink): Blink {
    b.(status := 1, countdown := b.onLength)
  }

  /** ADD. */
  function Add(s: State, b: Blink): (r: (State, bool))
    requires s.Valid()
    ensures r.0.Valid()
  {
    if b.location >= CELLS || |s.list| >= CELLS then (s, false)
    else (State([Fresh(b)] + s.list, Poke(s.vmem, b.location, b.onChar)), true)
  }

  function Without(list: seq<Blink>, i: nat): seq<Blink>
    requires i < |list|
  {
    list[..i] + list[i + 1..]
  }

  /** REMOVE. */
  function Remove(s: State, location: nat): (r: (State, bool))
    requires s.Valid()
    ensures r.0.Valid()
  {
    var i := FirstAt(s.list, location);
    if i == |s.list| then (s, false) else (State(Without(s.list, i), s.vmem), true)
  }

  /** The blink b with the timing of a. */
  function Timed(b: Blink, a: Blink): Blink {
    b.(onLength := a.onLength, offLength := a.offLength, countdown := a.countdown, status := a.status)
  }

  /** SYNC: the blink at `to` takes over the timing of the one at `from`. The
      redraw always shows the off character: the conditional move after the test
      of the status bit is never taken. */
  function Sync(s: State, from: nat, to: nat): (r: (State, bool))
    requires s.Valid()
    ensures r.0.Valid()
  {
    var i, j := FirstAt(s.list, from), FirstAt(s.list, to);
    if i == |s.list| || j == |s.list| then (s, false)
    else (State(s.list[j := Timed(s.list[j], s.list[i])], Poke(s.vmem, s.list[j].location, s.list[j].offChar)), true)
  }

  /** The countdown after the decrement, as a signed word. */
  function Decremented(c: nat): int {
    var d := (c - 1) % HALF;
    if d < HALF / 2 then d else d - HALF
  }

  /** One blink in a tick: it counts down, or changes over. */
  function TickOne(b: Blink): Blink {
    if Decremented(b.countdown) > 0 then b.(countdown := Decremented(b.countdown))
    else if b.status % 2 == 1 then b.(countdown := b.offLength, status := b.status - 1)
    else b.(countdown := b.onLength, status := b.status + 1)
  }

  /** What it draws when it changes over. */
  function TickDraws(vmem: seq<byte>, b: Blink): (r: seq<byte>)
    requires |vmem| >= 2 * CELLS && b.location < CELLS
    ensures |r| == |vmem|
  {
    if Decremented(b.countdown) > 0 then vmem
    else Poke(vmem, b.location, if b.status % 2 == 1 then b.offChar else b.onChar)
  }

  /** mp1_rtc_tasklet over the first n blinks. */
  function TickFirst(s: State, n: nat): (r: State)
    requires s.Valid() && n <= |s.list|
    ensures r.Valid() && |r.list| == |s.list| && |r.vmem| == |s.vmem|
    ensures forall k :: 0 <= k < |s.list| ==> r.list[k] == if k < n then TickOne(s.list[k]) else s.list[k]
  {
    if n == 0 then s
    else
      var before := TickFirst(s, n - 1);
      State(before.list[n - 1 := TickOne(s.list[n - 1])], TickDraws(before.vmem, s.list[n - 1]))
  }

  function Tick(s: State): (r: State)
    requires s.Valid()
    ensures r.Valid()
  {
    TickFirst(s, |s.list|)
  }

  /** Removing a location just added gives the list back: REMOVE and FIND act on
      the most recently added blink there. */
  lemma RemoveUndoesAdd(s: State, b: Blink)
    requires s.Valid() && Add(s, b).1
    ensures Remove(Add(s, b).0, b.location).1 && Remove(Add(s, b).0, b.location).0.list == s.list
    ensures FirstAt(Add(s, b).0.list, b.location) == 0
  {
    assert Without([Fresh(b)] + s.list, 0) == s.list;
  }

  // ---- Runs ----

  datatype Event = AddOne(b: Blink) | RemoveAt(location: nat) | SyncTo(from: nat, to: nat) | TickAll

  function Step(s: State, e: Event): (r: State)
    requires s.Valid()
    ensures r.Valid()
  {
    match e
    case AddOne(b) => Add(s, b).0
    case RemoveAt(l) => Remove(s, l).0
    case SyncTo(from, to) => Sync(s, from, to).0
    case TickAll => Tick(s)
  }

  function Run(s: State, es: seq<Event>): (r: State)
    requires s.Valid()
    ensures r.Valid()
    decreases |es|
  {
    if es == [] then s else Run(Step(s, es[0]), es[1..])
  }

  function Ticks(es: seq<Event>): nat {
    if es == [] then 0 else (if es[0].TickAll? then 1 else 0) + Ticks(es[1..])
  }

  /** The event adds, removes or re-times nothing at the location. */
  predicate Spares(e: Event, location: nat) {
    match e
    case AddOne(b) => b.location != location
    case RemoveAt(l) => l != location
    case SyncTo(_, to) => to != location
    case TickAll => true
  }

  predicate AllSpare(es: seq<Event>, location: nat) {
    forall i :: 0 <= i < |es| ==> Spares(es[i], location)
  }

  /** The first blink at a location. */
  function Lookup(list: seq<Blink>, location: nat): Option<Blink> {
    var i := FirstAt(list, location);
    if i < |list| then Some(list[i]) else None
  }

  lemma FirstAtIs(list: seq<Blink>, location: nat, i: nat)
    requires i <= |list| && (i < |list| ==> list[i].location == location)
    requires forall k :: 0 <= k < i ==> list[k].location != location
    ensures FirstAt(list, location) == i
  {
  }

  lemma RemovedIndex(s: State, l: nat, location: nat)
    requires s.Valid() && l != location && FirstAt(s.list, location) < |s.list|
    ensures var i, list' := FirstAt(s.list, location), Remove(s, l).0.list;
            var i' := if FirstAt(s.list, l) < i then i - 1 else i;
            FirstAt(list', location) == i' < |list'| && list'[i'] == s.list[i]
            && (Alone(s.list, location) ==> Alone(list', location))
  {
    if FirstAt(s.list, l) < |s.list| {
      WithoutIndex(s.list, FirstAt(s.list, l), location);
    }
  }

  lemma WithoutAt(list: seq<Blink>, j: nat)
    requires j < |list|
    ensures forall k :: 0 <= k < |list| - 1 ==> Without(list, j)[k] == list[if k < j then k else k + 1]
  {
  }

  /** Place i of the list, with the j-th taken out. */
  function Shifted(i: nat, j: nat): nat
    requires i != j
  {
    if j < i then i - 1 else i
  }

  lemma WithoutFirst(list: seq<Blink>, j: nat, location: nat)
    requires j < |list| && list[j].location != location && FirstAt(list, location) < |list|
    ensures var i := Shifted(FirstAt(list, location), j);
            i < |list| - 1 && FirstAt(Without(list, j), location) == i
            && Without(list, j)[i] == list[FirstAt(list, location)]
  {
    WithoutAt(list, j);
    FirstAtIs(Without(list, j), location, Shifted(FirstAt(list, location), j));
  }

  lemma WithoutAlone(list: seq<Blink>, j: nat, location: nat)
    requires j < |list| && list[j].location != location && Alone(list, location)
    ensures Alone(Without(list, j), location)
  {
    WithoutAt(list, j);
    WithoutFirst(list, j, location);
  }

  /** Taking out a blink from elsewhere moves the first one at a location by at
      most one place. */
  lemma WithoutIndex(list: seq<Blink>, j: nat, location: nat)
    requires j < |list| && list[j].location != location && FirstAt(list, location) < |list|
    ensures var i, list' := FirstAt(list, location), Without(list, j);
            var i' := if j < i then i - 1 else i;
            FirstAt(list', location) == i' < |list'| && list'[i'] == list[i]
            && (Alone(list, location) ==> Alone(list', location))
  {
    WithoutFirst(list, j, location);
    if Alone(list, location) {
      WithoutAlone(list, j, location);
    }
  }

  lemma AddedIndex(s: State, b: Blink, location: nat)
    requires s.Valid() && b.location != location && FirstAt(s.list, location) < |s.list|
    ensures var i, list' := FirstAt(s.list, location), Add(s, b).0.list;
            var i' := if Add(s, b).1 then i + 1 else i;
            FirstAt(list', location) == i' < |list'| && list'[i'] == s.list[i]
            && (Alone(s.list, location) ==> Alone(list', location))
  {
    var i, list' := FirstAt(s.list, location), Add(s, b).0.list;
    FirstAtIs(list', location, if Add(s, b).1 then i + 1 else i);
  }

  /** A list with the same locations has its first blinks at the same places. */
  lemma SameLocations(list: seq<Blink>, list': seq<Blink>, location: nat)
    requires |list| == |list'| && forall k :: 0 <= k < |list| ==> list'[k].location == list[k].location
    ensures FirstAt(list', location) == FirstAt(list, location)
    ensures Alone(list, location) ==> Alone(list', location)
  {
    FirstAtIs(list', location, FirstAt(list, location));
  }

  /** Events that spare a location leave the first blink there, except that a tick
      lets it count down, and bring no other blink to the location. */
  lemma LookupStep(s: State, e: Event, location: nat)
    requires s.Valid() && Spares(e, location) && Lookup(s.list, location).Some?
    ensures Lookup(Step(s, e).list, location)
         == Some(if e.TickAll? then TickOne(Lookup(s.list, location).value) else Lookup(s.list, location).value)
    ensures Alone(s.list, location) ==> Alone(Step(s, e).list, location)
  {
    match e
    case AddOne(b) => AddedIndex(s, b, location);
    case RemoveAt(l) => RemovedIndex(s, l, location);
    case SyncTo(from, to) => SameLocations(s.list, Sync(s, from, to).0.list, location);
    case TickAll => SameLocations(s.list, Tick(s).list, location);
  }

  /** Exactly one blink is at the location. */
  predicate Alone(list: seq<Blink>, location: nat) {
    var i := FirstAt(list, location);
    i < |list| && forall k :: 0 <= k < |list| && k != i ==> list[k].location != location
  }

  // ---- Locations ----

  /** The blinks at a location, the most recently added first. */
  function BlinksAt(list: seq<Blink>, location: nat): seq<Blink>
    decreases |list|
  {
    if list == [] then []
    else (if list[0].location == location then [list[0]] else []) + BlinksAt(list[1..], location)
  }

  lemma {:induction false} FirstIsNewest(list: seq<Blink>, location: nat)
    ensures var c := BlinksAt(list, location);
            (c == [] <==> Lookup(list, location) == None) && (c != [] ==> Lookup(list, location) == Some(c[0]))
    decreases |list|
  {
    if list != [] && list[0].location != location {
      FirstIsNewest(list[1..], location);
    }
  }

  lemma AtCons(b: Blink, rest: seq<Blink>, location: nat)
    ensures BlinksAt([b] + rest, location) ==
            if b.location == location then [b] + BlinksAt(rest, location) else BlinksAt(rest, location)
  {
    assert ([b] + rest)[1..] == rest;
  }

  /** A stack without its newest blink. */
  function Popped(c: seq<Blink>): seq<Blink> {
    if c == [] then [] else c[1..]
  }

  lemma {:induction false} WithoutIsRest(list: seq<Blink>, i: nat, location: nat)
    requires i < |list| && i == FirstAt(list, list[i].location)
    ensures BlinksAt(Without(list, i), location) ==
            if location == list[i].location then Popped(BlinksAt(list, location)) else BlinksAt(list, location)
    decreases |list|
  {
    if i == 0 {
      assert list == [list[0]] + list[1..] && Without(list, 0) == list[1..];
      AtCons(list[0], list[1..], location);
    } else {
      WithoutIsRest(list[1..], i - 1, location);
      WithoutFurther(list, i, location);
    }
  }

  lemma WithoutFurther(list: seq<Blink>, i: nat, location: nat)
    requires 0 < i < |list| && list[0].location != list[i].location
    requires BlinksAt(Without(list[1..], i - 1), location) ==
             var c := BlinksAt(list[1..], location); if location == list[i].location then Popped(c) else c
    ensures BlinksAt(Without(list, i), location) ==
            if location == list[i].location then Popped(BlinksAt(list, location)) else BlinksAt(list, location)
  {
    var rest := list[1..];
    assert list == [list[0]] + rest && Without(list, i) == [list[0]] + Without(rest, i - 1);
    AtCons(list[0], rest, location);
    AtCons(list[0], Without(rest, i - 1), location);
  }

  lemma {:induction false} ReplacedNewest(list: seq<Blink>, i: nat, b: Blink, location: nat)
    requires i < |list| && i == FirstAt(list, list[i].location) && b.location == list[i].location
    ensures BlinksAt(list[i := b], location) ==
            var c := BlinksAt(list, location); if location == b.location && c != [] then [b] + c[1..] else c
    ensures location == b.location ==> BlinksAt(list, location) != []
    decreases |list|
  {
    if i == 0 {
      assert list[0 := b][1..] == list[1..];
    } else {
      ReplacedNewest(list[1..], i - 1, b, location);
      assert list[i := b][1..] == list[1..][i - 1 := b];
    }
  }

  /** Each blink after a tick. */
  function Ticked(c: seq<Blink>): seq<Blink> {
    seq(|c|, i requires 0 <= i < |c| => TickOne(c[i]))
  }

  lemma {:induction false} TickedAt(list: seq<Blink>, location: nat)
    ensures BlinksAt(Ticked(list), location) == Ticked(BlinksAt(list, location))
    decreases |list|
  {
    if list != [] {
      TickedAt(list[1..], location);
      assert Ticked(list)[1..] == Ticked(list[1..]);
    }
  }

  /** What a command does to the blinks at a location, which form a stack of their own:
      ADD pushes one that is on with its on time to go, REMOVE pops, SYNC gives the newest
      one the timing of the newest one elsewhere, a tick ticks them all. */
  lemma StepByLocation(s: State, e: Event, l: nat)
    requires s.Valid()
    ensures var c, c' := BlinksAt(s.list, l), BlinksAt(Step(s, e).list, l);
            match e
            case AddOne(b) =>
              c' == if l == b.location && l < CELLS && |s.list| < CELLS
                    then [b.(status := 1, countdown := b.onLength)] + c else c
            case RemoveAt(m) => c' == if l == m then Popped(c) else c
            case SyncTo(from, to) =>
              var a := BlinksAt(s.list, from);
              c' == if l == to && c != [] && a != []
                    then [c[0].(onLength := a[0].onLength, offLength := a[0].offLength,
                                countdown := a[0].countdown, status := a[0].status)] + c[1..]
                    else c
            case TickAll => c' == Ticked(c)
  {
    match e
    case AddOne(b) => assert ([Fresh(b)] + s.list)[1..] == s.list;
    case RemoveAt(m) =>
      FirstIsNewest(s.list, m);
      if FirstAt(s.list, m) < |s.list| {
        WithoutIsRest(s.list, FirstAt(s.list, m), l);
      }
    case SyncTo(from, to) => SyncByLocation(s, from, to, l);
    case TickAll =>
      assert Tick(s).list == Ticked(s.list);
      TickedAt(s.list, l);
  }

  lemma SyncByLocation(s: State, from: nat, to: nat, l: nat)
    requires s.Valid()
    ensures var a, c := BlinksAt(s.list, from), BlinksAt(s.list, l);
            BlinksAt(Sync(s, from, to).0.list, l) ==
            if l == to && c != [] && a != [] then [Timed(c[0], a[0])] + c[1..] else c
  {
    FirstIsNewest(s.list, from);
    FirstIsNewest(s.list, to);
    if FirstAt(s.list, from) < |s.list| && FirstAt(s.list, to) < |s.list| {
      var a, b := Lookup(s.list, from).value, Lookup(s.list, to).value;
      ReplacedNewest(s.list, FirstAt(s.list, to), Timed(b, a), l);
    }
  }

  /** When the commands succeed: ADD exactly for a location on the screen and a list that
      is not full, REMOVE exactly with a blink at the location, SYNC exactly with one at
      each. A command that fails changes nothing. */
  lemma SucceedsIff(s: State, b: Blink, from: nat, to: nat)
    requires s.Valid()
    ensures Add(s, b).1 <==> b.location < CELLS && |s.list| < CELLS
    ensures Remove(s, to).1 <==> BlinksAt(s.list, to) != []
    ensures Sync(s, from, to).1 <==> BlinksAt(s.list, from) != [] && BlinksAt(s.list, to) != []
    ensures !Add(s, b).1 ==> Add(s, b).0 == s
    ensures !Remove(s, to).1 ==> Remove(s, to).0 == s
    ensures !Sync(s, from, to).1 ==> Sync(s, from, to).0 == s
  {
    FirstIsNewest(s.list, from);
    FirstIsNewest(s.list, to);
  }

  /** What the commands draw: ADD the on character and SYNC the off character in one cell,
      REMOVE nothing. No command changes another byte. */
  lemma StepDrawsOnly(s: State, e: Event, i: nat)
    requires s.Valid() && i < |s.vmem| && !e.TickAll?
    ensures |Step(s, e).vmem| == |s.vmem|
    ensures Step(s, e).vmem[i] ==
            match e
            case AddOne(b) =>
              if i == 2 * b.location && b.location < CELLS && |s.list| < CELLS then b.onChar else s.vmem[i]
            case RemoveAt(_) => s.vmem[i]
            case SyncTo(from, to) =>
              var a, c := BlinksAt(s.list, from), BlinksAt(s.list, to);
              if i == 2 * to && a != [] && c != [] then c[0].offChar else s.vmem[i]
            case TickAll => s.vmem[i]
  {
    if e.SyncTo? {
      FirstIsNewest(s.list, e.from);
      FirstIsNewest(s.list, e.to);
    }
  }

  // ---- Timing ----

  /** A blink k ticks after it was added. */
  function Aged(b: Blink, k: nat): Blink {
    if k == 0 then Fresh(b) else TickOne(Aged(b, k - 1))
  }

  /** The lengths are words. */
  predicate Lengths(b: Blink) {
    b.onLength < HALF && b.offLength < HALF
  }

  /** How many ticks a countdown lasts: 0, and what is negative as a signed word once
      decremented, last one tick. */
  function Span(c: nat): (n: nat)
    ensures n > 0
  {
    if 0 < c <= HALF / 2 then c else 1
  }

  /** The cycle of a blink. */
  function Cycle(b: Blink): (n: nat)
    ensures n > 1
  {
    Span(b.onLength) + Span(b.offLength)
  }

  /** Place k of a cycle of n. */
  function Place(k: nat, n: nat): (r: nat)
    requires n > 0
    ensures r < n
  {
    if k == 0 then 0 else if Place(k - 1, n) + 1 == n then 0 else Place(k - 1, n) + 1
  }

  lemma {:induction false} PlaceIsMod(k: nat, n: nat)
    requires n > 0
    ensures Place(k, n) == k % n
  {
    if k > 0 {
      PlaceIsMod(k - 1, n);
      NextMod(k - 1, n);
    }
  }

  /** The blink is on in the first places of its cycle, with the time
      to the next change-over as its countdown. */
  lemma {:induction false} AgedIs(b: Blink, k: nat)
    requires Lengths(b)
    ensures Aged(b, k) == AtPlace(b, Place(k, Cycle(b)))
  {
    if k > 0 {
      AgedIs(b, k - 1);
      TickMovesPlace(b, Place(k - 1, Cycle(b)));
    }
  }

  /** A blink at place r of its cycle. */
  function AtPlace(b: Blink, r: nat): Blink
    requires r < Cycle(b)
  {
    b.(status := if r < Span(b.onLength) then 1 else 0,
       countdown := if r < Span(b.onLength) then b.onLength - r else b.offLength - (r - Span(b.onLength)))
  }

  lemma TickMovesPlace(b: Blink, r: nat)
    requires Lengths(b) && r < Cycle(b)
    ensures TickOne(AtPlace(b, r)) == AtPlace(b, if r + 1 == Cycle(b) then 0 else r + 1)
  {
  }

  /** The character a blink shows in its status. */
  function Shown(b: Blink): byte {
    if b.status % 2 == 1 then b.onChar else b.offChar
  }

  /** Drawing the others leaves the cell of a blink that is alone there; its own
      change-over draws its new character. */
  lemma {:induction false} TickCell(s: State, n: nat, location: nat)
    requires s.Valid() && n <= |s.list| && Alone(s.list, location) && location < CELLS
    ensures var i := FirstAt(s.list, location);
            TickFirst(s, n).vmem[2 * location] ==
            if i < n && Decremented(s.list[i].countdown) <= 0 then Shown(TickOne(s.list[i])) else s.vmem[2 * location]
  {
    if n > 0 {
      TickCell(s, n - 1, location);
      DrawsOwnCell(TickFirst(s, n - 1).vmem, s.list[n - 1], location);
    }
  }

  lemma {:induction false} AtAppended(list: seq<Blink>, b: Blink, location: nat)
    ensures BlinksAt(list + [b], location) ==
            BlinksAt(list, location) + (if b.location == location then [b] else [])
    decreases |list|
  {
    if list == [] {
      assert (list + [b])[1..] == [];
    } else {
      assert (list + [b])[1..] == list[1..] + [b];
      AtAppended(list[1..], b, location);
    }
  }

  /** What the last blink of a stack that changes over in a tick draws, if any does. */
  function LastDrawn(c: seq<Blink>, was: byte): byte
    decreases |c|
  {
    if c == [] then was
    else if Decremented(c[|c| - 1].countdown) <= 0 then Shown(TickOne(c[|c| - 1]))
    else LastDrawn(c[..|c| - 1], was)
  }

  /** A tick leaves in each cell what the last blink there that changes over draws, the
      list being walked from the newest to the oldest, and no other byte changes. */
  lemma TickDrawsLast(s: State, l: nat)
    requires s.Valid() && l < CELLS
    ensures |Tick(s).vmem| == |s.vmem| && Tick(s).vmem[2 * l] == LastDrawn(BlinksAt(s.list, l), s.vmem[2 * l])
    ensures forall i :: 0 <= i < |s.vmem| && (i % 2 == 1 || i >= 2 * CELLS) ==> Tick(s).vmem[i] == s.vmem[i]
  {
    TickFirstDraws(s, |s.list|, l);
    TickFirstSpares(s, |s.list|);
    assert s.list[..|s.list|] == s.list;
  }

  lemma {:induction false} TickFirstSpares(s: State, n: nat)
    requires s.Valid() && n <= |s.list|
    ensures forall i :: 0 <= i < |s.vmem| && (i % 2 == 1 || i >= 2 * CELLS) ==> TickFirst(s, n).vmem[i] == s.vmem[i]
  {
    if n > 0 {
      TickFirstSpares(s, n - 1);
    }
  }

  lemma {:induction false} TickFirstDraws(s: State, n: nat, l: nat)
    requires s.Valid() && n <= |s.list| && l < CELLS
    ensures TickFirst(s, n).vmem[2 * l] == LastDrawn(BlinksAt(s.list[..n], l), s.vmem[2 * l])
  {
    if n > 0 {
      TickFirstDraws(s, n - 1, l);
      NextDraws(TickFirst(s, n - 1).vmem, s.list[..n - 1], s.list[n - 1], l, s.vmem[2 * l]);
      assert s.list[..n] == s.list[..n - 1] + [s.list[n - 1]];
    }
  }

  lemma NextDraws(vmem: seq<byte>, list: seq<Blink>, b: Blink, l: nat, was: byte)
    requires |vmem| >= 2 * CELLS && b.location < CELLS && l < CELLS
    requires vmem[2 * l] == LastDrawn(BlinksAt(list, l), was)
    ensures TickDraws(vmem, b)[2 * l] == LastDrawn(BlinksAt(list + [b], l), was)
  {
    AtAppended(list, b, l);
    LastOne(BlinksAt(list, l), b, was);
  }

  lemma LastOne(c: seq<Blink>, b: Blink, was: byte)
    ensures LastDrawn(c + [b], was) == if Decremented(b.countdown) <= 0 then Shown(TickOne(b)) else LastDrawn(c, was)
    ensures LastDrawn(c + [], was) == LastDrawn(c, was)
  {
    assert (c + [b])[..|c|] == c && c + [] == c;
  }

  lemma DrawsOwnCell(vmem: seq<byte>, b: Blink, location: nat)
    requires |vmem| >= 2 * CELLS && b.location < CELLS && location < CELLS
    ensures TickDraws(vmem, b)[2 * location] ==
            if b.location == location && Decremented(b.countdown) <= 0 then Shown(TickOne(b)) else vmem[2 * location]
  {
  }

  lemma CellStep(s: State, e: Event, location: nat)
    requires s.Valid() && Spares(e, location) && Alone(s.list, location) && location < CELLS
    requires s.vmem[2 * location] == Shown(Lookup(s.list, location).value)
    ensures Lookup(Step(s, e).list, location).Some?
    ensures Step(s, e).vmem[2 * location] == Shown(Lookup(Step(s, e).list, location).value)
  {
    LookupStep(s, e, location);
    if e.TickAll? {
      TickCell(s, |s.list|, location);
    }
  }

  /** k ticks after a blink was added, whatever is added, removed and synchronised
      elsewhere meanwhile, it is on if and only if k mod (on + off) < on, and its
      cell shows the matching character. */
  lemma BlinksOnTime(s: State, b: Blink, es: seq<Event>, k: nat)
    requires s.Valid() && Lengths(b) && Add(s, b).1 && FirstAt(s.list, b.location) == |s.list|
    requires AllSpare(es, b.location) && k == Ticks(es)
    ensures var s' := Run(Add(s, b).0, es); var x := Lookup(s'.list, b.location);
            && x == Some(Aged(b, k))
            && (x.value.status == 1 <==> k % Cycle(b) < Span(b.onLength))
            && (x.value.status == 0 <==> k % Cycle(b) >= Span(b.onLength))
            && s'.vmem[2 * b.location] == if k % Cycle(b) < Span(b.onLength) then b.onChar else b.offChar
  {
    var s1 := Add(s, b).0;
    FirstAtIs(s1.list, b.location, 0);
    RunAges(s1, es, b, 0);
    AgedOnTime(Run(s1, es), b, k);
  }

  lemma AgedOnTime(s: State, b: Blink, k: nat)
    requires AgedAt(s, b, k) && Lengths(b)
    ensures var x := Lookup(s.list, b.location);
            && (x.value.status == 1 <==> k % Cycle(b) < Span(b.onLength))
            && (x.value.status == 0 <==> k % Cycle(b) >= Span(b.onLength))
            && s.vmem[2 * b.location] == if k % Cycle(b) < Span(b.onLength) then b.onChar else b.offChar
  {
    AgedIs(b, k);
    PlaceIsMod(k, Cycle(b));
  }

  /** The one blink at its location is b after k ticks, and its cell shows it. */
  predicate AgedAt(s: State, b: Blink, k: nat) {
    && s.Valid() && b.location < CELLS && Alone(s.list, b.location)
    && Lookup(s.list, b.location) == Some(Aged(b, k)) && s.vmem[2 * b.location] == Shown(Aged(b, k))
  }

  /** One event ages the blink if it is a tick. */
  lemma StepAges(s: State, e: Event, b: Blink, k: nat)
    requires AgedAt(s, b, k) && Spares(e, b.location)
    ensures AgedAt(Step(s, e), b, if e.TickAll? then k + 1 else k)
  {
    LookupStep(s, e, b.location);
    CellStep(s, e, b.location);
  }

  lemma {:induction false} RunAges(s: State, es: seq<Event>, b: Blink, k: nat)
    requires AgedAt(s, b, k) && AllSpare(es, b.location)
    ensures AgedAt(Run(s, es), b, k + Ticks(es))
    decreases |es|
  {
    if es != [] {
      assert Spares(es[0], b.location);
      StepAges(s, es[0], b, k);
      RunAges(Step(s, es[0]), es[1..], b, if es[0].TickAll? then k + 1 else k);
    }
  }

  // ---- Synchronisation ----

  /** Same lengths, countdown and status. */
  predicate InStep(a: Blink, b: Blink) {
    a.onLength == b.onLength && a.offLength == b.offLength && a.countdown == b.countdown && a.status == b.status
  }

  /** After SYNC two blinks change over together at every later tick, until one of
      them is re-timed, removed or hidden behind a new one. */
  lemma SyncedStayInStep(s: State, from: nat, to: nat, es: seq<Event>)
    requires s.Valid() && Sync(s, from, to).1 && AllSpare(es, from) && AllSpare(es, to)
    ensures Together(Run(Sync(s, from, to).0, es).list, from, to)
  {
    var s' := Sync(s, from, to).0;
    FirstAtIs(s'.list, from, FirstAt(s.list, from));
    FirstAtIs(s'.list, to, FirstAt(s.list, to));
    RunInStep(s', from, to, es);
  }

  /** The first blinks at the two locations are in step. */
  predicate Together(list: seq<Blink>, from: nat, to: nat) {
    var a, b := Lookup(list, from), Lookup(list, to);
    a.Some? && b.Some? && InStep(a.value, b.value)
  }

  lemma StepInStep(s: State, e: Event, from: nat, to: nat)
    requires s.Valid() && Spares(e, from) && Spares(e, to) && Together(s.list, from, to)
    ensures Together(Step(s, e).list, from, to)
  {
    LookupStep(s, e, from);
    LookupStep(s, e, to);
  }

  lemma {:induction false} RunInStep(s: State, from: nat, to: nat, es: seq<Event>)
    requires s.Valid() && AllSpare(es, from) && AllSpare(es, to)
    requires Together(s.list, from, to)
    ensures Together(Run(s, es).list, from, to)
    decreases |es|
  {
    if es != [] {
      StepInStep(s, es[0], from, to);
      RunInStep(Step(s, es[0]), from, to, es[1..]);
    }
  }

  // ---- What SYNC draws ----

  /** The redraw of SYNC shows the character of the target's new status if and only
      if that status is off or the two characters are the same. */
  lemma SyncDrawsRightIff(s: State, from: nat, to: nat)
    requires s.Valid() && Sync(s, from, to).1
    ensures to < CELLS && Lookup(s.list, from).Some? && Lookup(Sync(s, from, to).0.list, to).Some?
    ensures var x, y := Lookup(s.list, from).value, Lookup(Sync(s, from, to).0.list, to).value;
            Sync(s, from, to).0.vmem[2 * to] == Shown(y) <==> x.status % 2 == 0 || y.onChar == y.offChar
  {
    FirstAtIs(Sync(s, from, to).0.list, to, FirstAt(s.list, to));
  }

  /** From the empty list: two blinks are added, and the second is synchronised to
      the first. It is on and shows its off character. */
  lemma SyncDrawsWrong(vmem: seq<byte>, a: Blink, b: Blink)
    requires |vmem| >= 2 * CELLS && a.location < CELLS && b.location < CELLS && a.location != b.location
    requires b.onChar != b.offChar
    ensures var s := Run(State([], vmem), [AddOne(a), AddOne(b), SyncTo(a.location, b.location)]);
            && Lookup(s.list, b.location).Some? && Lookup(s.list, b.location).value.status == 1
            && s.vmem[2 * b.location] == b.offChar != Shown(Lookup(s.list, b.location).value)
  {
    var s0 := State([], vmem);
    var s1 := Step(s0, AddOne(a));
    var s2 := Step(s1, AddOne(b));
    RunThree(s0, AddOne(a), AddOne(b), SyncTo(a.location, b.location));
    assert s2.list == [Fresh(b), Fresh(a)];
    FirstAtIs(s2.list, a.location, 1);
    FirstAtIs(s2.list, b.location, 0);
    SyncedTarget(s2, a.location, b.location);
  }

  lemma SyncedTarget(s: State, from: nat, to: nat)
    requires s.Valid() && Sync(s, from, to).1
    ensures Lookup(Sync(s, from, to).0.list, to)
         == Some(Timed(s.list[FirstAt(s.list, to)], s.list[FirstAt(s.list, from)]))
    ensures to < CELLS && Sync(s, from, to).0.vmem[2 * to] == s.list[FirstAt(s.list, to)].offChar
  {
    FirstAtIs(Sync(s, from, to).0.list, to, FirstAt(s.list, to));
  }

  lemma RunThree(s: State, e: Event, f: Event, g: Event)
    requires s.Valid()
    ensures Run(s, [e, f, g]) == Step(Step(Step(s, e), f), g)
  {
    var s1 := Step(s, e);
    RunOne(s, e, [f, g]);
    RunTwo(s1, f, g);
    assert [e, f, g] == [e] + [f, g];
  }

  lemma RunTwo(s: State, e: Event, f: Event)
    requires s.Valid()
    ensures Run(s, [e, f]) == Step(Step(s, e), f)
  {
    var s1 := Step(s, e);
    RunOne(s, e, [f]);
    RunOne(s1, f, []);
    assert [e, f] == [e] + [f] && [f] == [f] + [];
  }

  lemma RunOne(s: State, e: Event, es: seq<Event>)
    requires s.Valid()
    ensures Run(s, [e] + es) == Run(Step(s, e), es)
  {
    assert ([e] + es)[1..] == es;
  }

  /** A blink after k more ticks. */
  function After(b: Blink, k: nat): Blink {
    if k == 0 then b else TickOne(After(b, k - 1))
  }

  /** One of the next k ticks changes the blink over. */
  predicate Changed(b: Blink, k: nat) {
    k > 0 && (Changed(b, k - 1) || Decremented(After(b, k - 1).countdown) <= 0)
  }

  /** The change-over comes with the tick that the countdown says. */
  lemma {:induction false} ChangedIff(b: Blink, k: nat)
    requires b.countdown < HALF
    ensures Changed(b, k) <==> k >= Span(b.countdown)
  {
    if k > 0 {
      ChangedIff(b, k - 1);
      if k <= Span(b.countdown) {
        CountsDown(b, k - 1);
      }
    }
  }

  /** Before that it only counts down. */
  lemma {:induction false} CountsDown(b: Blink, k: nat)
    requires b.countdown < HALF && k < Span(b.countdown)
    ensures After(b, k) == b.(countdown := b.countdown - k)
  {
    if k > 0 {
      CountsDown(b, k - 1);
    }
  }

  /** The one blink at its location is b after k ticks; its cell still holds c, or
      after a change-over the character it shows. */
  predicate DrawnAt(s: State, b: Blink, k: nat, c: byte) {
    && s.Valid() && b.location < CELLS && Alone(s.list, b.location)
    && Lookup(s.list, b.location) == Some(After(b, k))
    && s.vmem[2 * b.location] == if Changed(b, k) then Shown(After(b, k)) else c
  }

  lemma StepDraws(s: State, e: Event, b: Blink, k: nat, c: byte)
    requires DrawnAt(s, b, k, c) && Spares(e, b.location)
    ensures DrawnAt(Step(s, e), b, if e.TickAll? then k + 1 else k, c)
  {
    LookupStep(s, e, b.location);
    if e.TickAll? {
      TickCell(s, |s.list|, b.location);
    }
  }

  lemma {:induction false} RunDraws(s: State, es: seq<Event>, b: Blink, k: nat, n: nat, c: byte)
    requires DrawnAt(s, b, k, c) && AllSpare(es, b.location) && n == k + Ticks(es)
    ensures DrawnAt(Run(s, es), b, n, c)
    decreases |es|
  {
    if es != [] {
      assert Spares(es[0], b.location);
      StepDraws(s, es[0], b, k, c);
      RunDraws(Step(s, es[0]), es[1..], b, if es[0].TickAll? then k + 1 else k, n, c);
    }
  }

  /** The target of a SYNC behind it. */
  function Target(s: State, from: nat, to: nat): Blink
    requires s.Valid() && Sync(s, from, to).1
  {
    Timed(s.list[FirstAt(s.list, to)], s.list[FirstAt(s.list, from)])
  }

  lemma SyncedAlone(s: State, from: nat, to: nat)
    requires s.Valid() && Sync(s, from, to).1 && Alone(s.list, to)
    ensures Target(s, from, to).location == to
    ensures DrawnAt(Sync(s, from, to).0, Target(s, from, to), 0, Target(s, from, to).offChar)
  {
    SameLocations(s.list, Sync(s, from, to).0.list, to);
  }

  /** A SYNC, and then any run that leaves the target alone at its location: until
      the first change-over the cell shows the off character, and from then on at
      every tick the character that matches the target's status. */
  lemma SyncedShows(s: State, from: nat, to: nat, es: seq<Event>)
    requires s.Valid() && Sync(s, from, to).1 && Alone(s.list, to) && AllSpare(es, to)
    ensures DrawnAt(Run(Sync(s, from, to).0, es), Target(s, from, to), Ticks(es), Target(s, from, to).offChar)
  {
    SyncedAlone(s, from, to);
    RunDraws(Sync(s, from, to).0, es, Target(s, from, to), 0, Ticks(es), Target(s, from, to).offChar);
  }

  lemma {:induction false} AfterKeepsChars(b: Blink, k: nat)
    ensures After(b, k).offChar == b.offChar && After(b, k).onChar == b.onChar && After(b, k).location == b.location
  {
    if k > 0 {
      AfterKeepsChars(b, k - 1);
    }
  }

  /** A blink of age m, k ticks later, has age m + k. */
  lemma {:induction false} AgedAfter(a: Blink, b: Blink, m: nat, k: nat)
    requires InStep(Aged(a, m), b)
    ensures InStep(Aged(a, m + k), After(b, k))
  {
    if k > 0 {
      AgedAfter(a, b, m, k - 1);
    }
  }

  /** The target blinks with the phase of the blink it was synchronised to: if that
      one was m ticks old, k ticks after SYNC the target is on if and only if
      (m + k) mod (on + off) < on. Its cell is right from the tick on at which the
      other's countdown at SYNC runs out. */
  lemma SyncedBlinksOnTime(s: State, from: nat, to: nat, es: seq<Event>, a: Blink, m: nat, k: nat)
    requires s.Valid() && Sync(s, from, to).1 && Alone(s.list, to) && AllSpare(es, to) && k == Ticks(es)
    requires Lengths(a) && Lookup(s.list, from) == Some(Aged(a, m))
    ensures OnTime(Run(Sync(s, from, to).0, es), to, (m + k) % Cycle(a) < Span(a.onLength),
                   k >= Span(Aged(a, m).countdown))
  {
    var b := Target(s, from, to);
    SyncedAlone(s, from, to);
    SyncedShows(s, from, to, es);
    PhaseAfter(a, b, m, k);
    DrawnOnTime(Run(Sync(s, from, to).0, es), b, k, (m + k) % Cycle(a) < Span(a.onLength),
                k >= Span(Aged(a, m).countdown));
  }

  lemma DrawnOnTime(s: State, b: Blink, k: nat, on: bool, drawn: bool)
    requires DrawnAt(s, b, k, b.offChar) && After(b, k).status == (if on then 1 else 0) && (Changed(b, k) <==> drawn)
    ensures OnTime(s, b.location, on, drawn)
  {
    AfterKeepsChars(b, k);
  }

  /** The first blink at the location is on or off as said, and its cell shows the
      on character if it is on and has been drawn, otherwise the off character. */
  predicate OnTime(s: State, location: nat, on: bool, drawn: bool) {
    && |s.vmem| >= 2 * CELLS && location < CELLS && Lookup(s.list, location).Some?
    && var b := Lookup(s.list, location).value;
       b.status == (if on then 1 else 0) && s.vmem[2 * location] == if on && drawn then b.onChar else b.offChar
  }

  /** Status and change-over of a blink that is in step with one of age m. */
  lemma PhaseAfter(a: Blink, b: Blink, m: nat, k: nat)
    requires Lengths(a) && InStep(Aged(a, m), b)
    ensures After(b, k).status == if (m + k) % Cycle(a) < Span(a.onLength) then 1 else 0
    ensures Changed(b, k) <==> k >= Span(Aged(a, m).countdown)
  {
    AgedIs(a, m);
    AgedAfter(a, b, m, k);
    AgedIs(a, m + k);
    PlaceIsMod(m + k, Cycle(a));
    ChangedIff(b, k);
  }
}
