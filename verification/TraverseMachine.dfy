/**
 dir/traverse.rs, lfs_dir_traverse: the explicit-stack state machine, proved to
 emit exactly `Emission` while never holding more than two stacked frames.
 */
module TraverseMachine {
  import opened Tags
  import opened MetadataLog
  import opened Traverse
  import opened Compaction

  // LFS_DIR_TRAVERSE_DEPTH; the stack has one frame less
  const TRAVERSE_DEPTH := 3

  // Where a traversal stands: the tags still on disk, then the attributes.
  datatype Cursor = Cursor(log: seq<Rec>, pos: nat, attrs: seq<Item>, attrIndex: nat) {
    function Items(): seq<Item> {
      Lift(if pos <= |log| then log[pos..] else [])
      + (if attrIndex <= |attrs| then attrs[attrIndex..] else [])
    }

    function Remaining(): nat {
      (if pos <= |log| then |log| - pos else 0) + (if attrIndex <= |attrs| then |attrs| - attrIndex else 0)
    }
  }

  // A suspended traversal and the tag it is waiting to process.
  datatype Frame = Frame(cur: Cursor, win: Window, tag: Tag, payload: Payload)

  datatype Phase = GetNextTag | ProcessTag(tag: Tag, payload: Payload) | PopAndProcess

  const NOOP := Tag(NAME, 0, 0, 0)

  // the traversal of a move's source: structures and attributes only, so that
  // no tag it stops at can start another move
  predicate OverSource(w: Window, t: Tag) { w.sel == Movable && !IsMove(t) }

  function OrNoop(t: Option<Tag>): Tag {
    match t
    case None => NOOP
    case Some(t') => t'
  }

  // What the suspended frames will still emit once the current traversal ends.
  function Pending(stack: seq<Frame>): seq<Rec>
  {
    if stack == [] then []
    else
      var f := stack[|stack| - 1];
      Resumed(f, f.tag) + Pending(stack[..|stack| - 1])
  }

  // What frame `f` emits when it is resumed with tag `t`.
  function Resumed(f: Frame, t: Tag): seq<Rec>
  {
    Process(t, f.payload, f.win) + Emission(f.cur.Items(), f.win)
  }

  function Filtering(stack: seq<Frame>, t: Option<Tag>): seq<Rec>
    requires stack != []
  {
    Resumed(stack[|stack| - 1], OrNoop(t)) + Pending(stack[..|stack| - 1])
  }

  // The variables of the loop.
  datatype Machine = Machine(phase: Phase, filtering: bool, cur: Cursor, win: Window, stack: seq<Frame>) {

    predicate Inv() {
      && |stack| < TRAVERSE_DEPTH
      && (if filtering then stack != [] && win == NO_FILTER else |stack| <= 1)
      && (|stack| == 2 || (|stack| == 1 && !filtering) ==> stack[0].tag == NOOP)
      && (|stack| == 2 ==> OverSource(stack[1].win, stack[1].tag))
      && (|stack| == 1 && !filtering ==> OverSource(win, if phase.ProcessTag? then phase.tag else NOOP))
      && (phase.PopAndProcess? ==> stack != [])
    }

    // What the machine will still emit.
    function ToEmit(): seq<Rec>
      requires Inv()
    {
      match phase
      case PopAndProcess => Pending(stack)
      case GetNextTag =>
        if filtering then Filtering(stack, Survivor(stack[|stack| - 1].tag, cur.Items()))
        else Emission(cur.Items(), win) + Pending(stack)
      case ProcessTag(t, p) =>
        if filtering then Filtering(stack, Survivor(stack[|stack| - 1].tag, [Item(t, p)] + cur.Items()))
        else Process(t, p, win) + Emission(cur.Items(), win) + Pending(stack)
    }

    // Tags left in the outermost traversal, how far it is with the current
    // one, and the same for the traversal or filter pass above it.
    function Rank0(): nat { (if stack == [] then cur else stack[0].cur).Remaining() }

    function Rank1(): nat {
      if stack == [] then Stage(phase) else if |stack| == 1 && filtering then 5 else 3
    }

    function Rank2(): nat { (if |stack| >= 2 then stack[1].cur else cur).Remaining() }

    function Rank3(): nat { if |stack| == 2 then 5 else Stage(phase) }

    function Rank4(): nat { cur.Remaining() }

    ghost predicate Below(m: Machine) {
      || Rank0() < m.Rank0()
      || (Rank0() == m.Rank0() &&
          (|| Rank1() < m.Rank1()
           || (Rank1() == m.Rank1() &&
               (|| Rank2() < m.Rank2()
                || (Rank2() == m.Rank2() &&
                    (|| Rank3() < m.Rank3()
                     || (Rank3() == m.Rank3() &&
                         (|| Rank4() < m.Rank4()
                          || (Rank4() == m.Rank4() && Stage(phase) < Stage(m.phase))))))))))
    }
  }

  const NO_FILTER := Window(All, 0, 0, 0)

  // how far a phase is from the next tag
  function Stage(phase: Phase): nat {
    match phase
    case PopAndProcess => 0
    case GetNextTag => 1
    case ProcessTag(t, _) => if t.IsNoop() then 2 else 4
  }

  // Reads the next tag, from disk first, from the attributes after that.
  method NextTag(c: Cursor) returns (tag: Tag, payload: Payload, d: Cursor)
    requires c.Remaining() > 0
    ensures d.Remaining() == c.Remaining() - 1
    ensures c.Items() == [Item(tag, payload)] + d.Items()
  {
    if c.pos < |c.log| {
      tag, payload := c.log[c.pos].tag, Data(c.log[c.pos].data);
      d := c.(pos := c.pos + 1);
      assert Lift(c.log[c.pos..]) == [Item(tag, payload)] + Lift(d.log[d.pos..]);
    } else {
      tag, payload := c.attrs[c.attrIndex].tag, c.attrs[c.attrIndex].payload;
      d := c.(attrIndex := c.attrIndex + 1);
      assert c.attrs[c.attrIndex..] == [Item(tag, payload)] + d.attrs[d.attrIndex..];
    }
  }

  // `item` was read and `cur` is what is left.
  ghost predicate JustRead(m: Machine, item: Item, cur: Cursor) {
    m.Inv() && m.phase.GetNextTag? && m.cur.Items() == [item] + cur.Items()
  }

  lemma EmissionStep(item: Item, rest: seq<Item>, w: Window)
    ensures Emission([item] + rest, w) ==
            (if w.sel.Matches(item.tag) then Process(Filtered([item] + rest, w.sel), item.payload, w) else [])
            + Emission(rest, w)
  {
    assert ([item] + rest)[1..] == rest;
  }

  lemma SkipKeeps(m: Machine, item: Item, cur: Cursor)
    requires JustRead(m, item, cur) && m.(cur := cur).Inv()
    requires !m.win.sel.Matches(item.tag)
    ensures m.(cur := cur).ToEmit() == m.ToEmit()
  {
    EmissionStep(item, cur.Items(), m.win);
    var e, p := Emission(cur.Items(), m.win), Pending(m.stack);
    assert m.ToEmit() == ([] + e) + p;
    assert [] + e == e;
    assert m.(cur := cur).ToEmit() == e + p;
  }

  lemma PushKeeps(m: Machine, item: Item, cur: Cursor, n: Machine)
    requires JustRead(m, item, cur) && m.win.sel.Matches(item.tag) && m.win.sel != All
    requires n == Machine(GetNextTag, true, cur, NO_FILTER, m.stack + [Frame(cur, m.win, item.tag, item.payload)])
    requires n.Inv()
    ensures n.ToEmit() == m.ToEmit()
  {
    EmissionStep(item, cur.Items(), m.win);
    assert ([item] + cur.Items())[1..] == cur.Items();
    assert n.stack[..|m.stack|] == m.stack;
    assert n.stack[|m.stack|] == Frame(cur, m.win, item.tag, item.payload);
  }

  lemma ProcessKeeps(m: Machine, item: Item, cur: Cursor, n: Machine)
    requires JustRead(m, item, cur) && m.win.sel == All
    requires n == m.(cur := cur, phase := ProcessTag(item.tag, item.payload))
    requires n.Inv()
    ensures n.ToEmit() == m.ToEmit()
  {
    EmissionStep(item, cur.Items(), m.win);
  }

  lemma DrainedKeeps(m: Machine)
    requires m.Inv() && m.phase.GetNextTag? && m.cur.Remaining() == 0
    ensures m.stack == [] ==> m.ToEmit() == []
    ensures m.stack != [] ==> m.(phase := PopAndProcess).Inv() && m.(phase := PopAndProcess).ToEmit() == m.ToEmit()
  {
    hide Process, Filtered, EmitLog, Pending, Resumed;
    assert m.cur.Items() == [];
    assert Pending([]) == [] by { NonePending(); }
    if m.filtering {
      FilterPassed(m.stack);
    } else {
      assert Emission([], m.win) + Pending(m.stack) == Pending(m.stack);
    }
  }

  lemma NonePending()
    ensures Pending([]) == []
  {}

  // A filter pass that met nothing leaves its tag to be processed.
  lemma FilterPassed(stack: seq<Frame>)
    requires stack != []
    ensures Filtering(stack, Some(stack[|stack| - 1].tag)) == Pending(stack)
  {
    hide Process, Emission;
  }

  // TraversePhase::GetNextTag
  method GetNext(m: Machine) returns (n: Machine, done: bool)
    requires m.Inv() && m.phase.GetNextTag?
    ensures done ==> m.ToEmit() == []
    ensures !done ==> n.Inv() && n.ToEmit() == m.ToEmit() && n.Below(m)
  {
    hide Machine.ToEmit;
    if m.cur.Remaining() == 0 {
      DrainedKeeps(m);
      return m.(phase := PopAndProcess), m.stack == [];
    }
    done := false;
    var tag, payload, cur := NextTag(m.cur);
    if !m.win.sel.Matches(tag) {
      n := m.(cur := cur);
      SkipKeeps(m, Item(tag, payload), cur);
    } else if m.win.sel != All {
      n := Machine(GetNextTag, true, cur, NO_FILTER, m.stack + [Frame(cur, m.win, tag, payload)]);
      PushKeeps(m, Item(tag, payload), cur, n);
    } else {
      n := m.(cur := cur, phase := ProcessTag(tag, payload));
      ProcessKeeps(m, Item(tag, payload), cur, n);
    }
  }

  lemma MoveKeeps(m: Machine, n: Machine)
    requires m.Inv() && m.phase.ProcessTag? && !m.filtering
    requires IsMove(m.phase.tag) && m.win.Contains(m.phase.tag.id)
    requires n == Machine(GetNextTag, false, Cursor(m.phase.payload.Log(), 0, [], 0),
                          MoveWindow(m.phase.tag, m.win.diff),
                          m.stack + [Frame(m.cur, m.win, NOOP, Data([]))])
    requires n.Inv()
    ensures n.ToEmit() == m.ToEmit()
  {
    hide Emission, EmitLog, Process, Pending, Resumed, Filtering, Survivor;
    var log, f := m.phase.payload.Log(), Frame(m.cur, m.win, NOOP, Data([]));
    MoveProcessed(m.phase.tag, m.phase.payload, m.win);
    EmitLogIsEmission(log, n.win);
    assert n.cur.Items() == Lift(log) by {
      assert log[0..] == log;
    }
    PendingPush(m.stack, f);
    var e, rest := Emission(Lift(log), n.win), Emission(m.cur.Items(), m.win);
    assert n.ToEmit() == e + (rest + Pending(m.stack));
    assert m.ToEmit() == e + rest + Pending(m.stack);
  }

  lemma MoveProcessed(t: Tag, x: Payload, w: Window)
    requires IsMove(t) && w.Contains(t.id)
    ensures Process(t, x, w) == EmitLog(x.Log(), MoveWindow(t, w.diff))
  {}

  lemma PendingPush(stack: seq<Frame>, f: Frame)
    requires f.tag == NOOP
    ensures Pending(stack + [f]) == Emission(f.cur.Items(), f.win) + Pending(stack)
  {
    hide Emission;
    assert (stack + [f])[..|stack|] == stack;
    NothingProcessed(NOOP, f.payload, f.win, Emission(f.cur.Items(), f.win));
  }

  lemma FilterKeeps(m: Machine, n: Machine)
    requires m.Inv() && m.phase.ProcessTag? && m.filtering && !Silent(m.phase.tag)
    requires var i := |m.stack| - 1;
             var kept := Filter(m.stack[i].tag, m.phase.tag);
             n == m.(stack := m.stack[i := m.stack[i].(tag := OrNoop(kept))],
                     phase := if kept == None then PopAndProcess else GetNextTag)
    requires n.Inv()
    ensures n.ToEmit() == m.ToEmit()
  {
    var i := |m.stack| - 1;
    var item := Item(m.phase.tag, m.phase.payload);
    assert ([item] + m.cur.Items())[1..] == m.cur.Items();
    assert n.stack[..i] == m.stack[..i];
  }

  lemma SilentKeeps(m: Machine)
    requires m.Inv() && m.phase.ProcessTag?
    requires !m.win.Contains(m.phase.tag.id) || m.phase.tag.IsNoop() || (m.filtering && Silent(m.phase.tag))
    ensures m.(phase := GetNextTag).Inv() && m.(phase := GetNextTag).ToEmit() == m.ToEmit()
  {
    hide Emission, Pending, Survivor, Filtering;
    if m.filtering {
      SurvivorSkips(m.stack[|m.stack| - 1].tag, Item(m.phase.tag, m.phase.payload), m.cur.Items());
    } else {
      NothingProcessed(m.phase.tag, m.phase.payload, m.win, Emission(m.cur.Items(), m.win));
    }
  }

  lemma SurvivorSkips(t: Tag, x: Item, rest: seq<Item>)
    requires Silent(x.tag)
    ensures Survivor(t, [x] + rest) == Survivor(t, rest)
  {
    assert ([x] + rest)[1..] == rest;
  }

  lemma NothingProcessed(t: Tag, x: Payload, w: Window, rest: seq<Rec>)
    requires !w.Contains(t.id) || t.IsNoop()
    ensures Process(t, x, w) + rest == rest
  {}

  lemma EmitKeeps(m: Machine, r: Rec)
    requires m.Inv() && m.phase.ProcessTag? && !m.filtering && !IsMove(m.phase.tag)
    requires m.win.Contains(m.phase.tag.id) && !m.phase.tag.IsNoop()
    requires r == Rec(m.phase.tag.Moved(m.win.diff), m.phase.payload.Bytes())
    ensures m.ToEmit() == [r] + m.(phase := GetNextTag).ToEmit()
  {
    hide Emission, Pending, EmitLog, Filtering, Survivor;
    var e, p := Emission(m.cur.Items(), m.win), Pending(m.stack);
    assert [r] + e + p == [r] + (e + p);
  }

  // TraversePhase::ProcessTag; `emitted` is what the commit callback is given
  method Dispatch(m: Machine) returns (n: Machine, emitted: seq<Rec>)
    requires m.Inv() && m.phase.ProcessTag?
    ensures n.Inv() && emitted + n.ToEmit() == m.ToEmit() && n.Below(m)
  {
    hide Machine.ToEmit;
    var tag, payload := m.phase.tag, m.phase.payload;
    emitted := [];
    if !m.win.Contains(tag.id) || tag.IsNoop() {
      n := m.(phase := GetNextTag);
      SilentKeeps(m);
    } else if IsMove(tag) {
      if m.filtering {
        n := m.(phase := GetNextTag);
        SilentKeeps(m);
      } else {
        n := Machine(GetNextTag, false, Cursor(payload.Log(), 0, [], 0), MoveWindow(tag, m.win.diff),
                     m.stack + [Frame(m.cur, m.win, NOOP, Data([]))]);
        MoveKeeps(m, n);
      }
    } else if m.filtering {
      var top := |m.stack| - 1;
      var kept := Filter(m.stack[top].tag, tag);
      n := m.(stack := m.stack[top := m.stack[top].(tag := OrNoop(kept))],
              phase := if kept == None then PopAndProcess else GetNextTag);
      FilterKeeps(m, n);
    } else {
      emitted := [Rec(tag.Moved(m.win.diff), payload.Bytes())];
      n := m.(phase := GetNextTag);
      EmitKeeps(m, emitted[0]);
    }
  }

  // TraversePhase::PopAndProcess
  method Pop(m: Machine) returns (n: Machine)
    requires m.Inv() && m.phase.PopAndProcess?
    ensures n.Inv() && n.ToEmit() == m.ToEmit() && n.Below(m)
  {
    var top := |m.stack| - 1;
    var f := m.stack[top];
    n := Machine(ProcessTag(f.tag, f.payload), false, f.cur, f.win, m.stack[..top]);
  }

  lemma StartEmits(m: Machine, log: seq<Rec>, pos: nat, attrs: seq<Item>, w: Window)
    requires pos <= |log|
    requires m == Machine(GetNextTag, false, Cursor(log, pos, attrs, 0), w, [])
    ensures m.Inv() && m.ToEmit() == Emission(Lift(log[pos..]) + attrs, w)
  {
    assert attrs[0..] == attrs;
  }

  // lfs_dir_traverse
  method Run(log: seq<Rec>, pos: nat, attrs: seq<Item>, w: Window) returns (out: seq<Rec>)
    requires pos <= |log|
    ensures out == Emission(Lift(log[pos..]) + attrs, w)
  {
    hide Machine.ToEmit, Emission;
    var m := Machine(GetNextTag, false, Cursor(log, pos, attrs, 0), w, []);
    StartEmits(m, log, pos, attrs, w);
    ghost var target := m.ToEmit();
    out := [];
    while true
      invariant m.Inv() && out + m.ToEmit() == target
      decreases m.Rank0(), m.Rank1(), m.Rank2(), m.Rank3(), m.Rank4(), Stage(m.phase)
    {
      match m.phase {
        case GetNextTag =>
          var n, done := GetNext(m);
          if done {
            return;
          }
          m := n;
        case ProcessTag(_, _) =>
          var n, emitted := Dispatch(m);
          assert out + (emitted + n.ToEmit()) == (out + emitted) + n.ToEmit();
          m, out := n, out + emitted;
        case PopAndProcess =>
          m := Pop(m);
      }
    }
  }
}
