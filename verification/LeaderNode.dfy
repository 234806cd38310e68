/** A leader's collection with its directory beside the replication broker and the other
    collections: every operation is a step of the node, published in commit order. */
module LeaderNode {
  import opened Common
  import opened Log
  import opened Store
  import opened Swap
  import opened Writes
  import opened Collections
  import opened Compactor
  import opened Passes
  import opened Steps
  import opened Runs
  import opened Replication
  import opened Follower
  import opened Snapshots

  ghost function CellOf(c: Collection, open: Open, pass: Option<Pass>, out: seq<Entry>): Cell reads c {
    Cell(c.cfg, SnapOf(c, open, pass, out))
  }

  /** The cell is the collection, with some open transactions and a pass that may be under way. */
  ghost predicate HasState(x: Cell, c: Collection) reads c {
    x == CellOf(c, x.now.open, x.now.pass, x.now.out)
  }

  /** publishCommit for each line, in commit order. */
  method Publish(b: Broker, name: string, es: seq<Entry>)
    requires b.Valid() && b.lsn == |b.log|
    modifies b, b.ring
    ensures b.Valid() && b.ring == old(b.ring) && b.lsn == |b.log| && b.log == Shipped(old(b.log), name, es)
  {
    hide RingOk, StateOk, Shipped;
    ShippedSnoc(b.log, name, [], Tombstone(0, 0));
    for i := 0 to |es|
      invariant b.Valid() && b.ring == old(b.ring) && b.lsn == |b.log| && b.log == Shipped(old(b.log), name, es[..i])
    {
      ShippedSnoc(old(b.log), name, es[..i], es[i]);
      TakeSnoc(es, i);
      var l := b.Publish(name, es[i]);
    }
    TakeAll(es);
  }

  /** One operation, published, is a step of the node. */
  method DoOne(b: Broker, n: string, c: Collection, d: Directory, open: Open, pass: Option<Pass>, a: Steps.Action,
               ghost out: seq<Entry>, ghost began: nat, ghost x: Node)
    returns (open': Open, pass': Option<Pass>, answer: bool, broke: bool, ghost out': seq<Entry>, ghost began': nat,
             ghost y: Node)
    requires b.Valid() && b.lsn == |b.log| && Running(c, d, open, pass, out, began) && Sane(a) && Ships(a)
    requires x.log == b.log && n in x.cells && x.cells[n] == CellOf(c, open, pass, out)
    modifies b, b.ring, c, c.sidx.Values, d
    ensures b.Valid() && b.ring == old(b.ring) && b.lsn == |b.log| && fresh(c.sidx.Values - old(c.sidx.Values))
    ensures broke <==> a.FinishCompact? && Breaks(x.cells[n].now)
    ensures if broke then b.log == x.log && (LeftCollided(c, old(c.active.num)) || LeftDropped(c))
            else
              && Running(c, d, open', pass', out', began') && Moves(x, y, Label(n, a, answer))
              && y == Node(b.log, x.cells[n := CellOf(c, open', pass', out')])
  {
    hide Running, RingOk, StateOk, Ran, Ships, Sane, Breaks, LeftCollided, LeftDropped, Shipped;
    NotApplied(a);
    ghost var s := SnapOf(c, open, pass, out);
    var from := |c.published|;
    y := x;
    open', pass', answer, broke, out', began' := Step(c, d, open, pass, a, out, began);
    if !broke {
      ghost var t := SnapOf(c, open', pass', out');
      RanGrows(c.cfg, a, s, t, answer);
      assert Ship(s, t) == c.published[from..];
      Publish(b, n, c.published[from..]);
      y := Node(b.log, x.cells[n := CellOf(c, open', pass', out')]);
    }
  }

  /** An operation of the collection at hand, or a step of another one with the lines it
      published. */
  datatype Happening =
    | Mine(a: Steps.Action)
    | Foreign(collection: string, a: Steps.Action, next: Snap, answer: bool, lines: seq<Entry>)

  /** The other collections after the first n happenings. */
  function Others(cells: map<string, Cell>, script: seq<Happening>, n: nat): (r: map<string, Cell>)
    requires n <= |script|
    ensures r.Keys == cells.Keys
  {
    if n == 0 then cells else
    var was := Others(cells, script, n - 1);
    match script[n - 1]
    case Mine(_) => was
    case Foreign(m, _, next, _, _) => if m in was then was[m := was[m].(now := next)] else was
  }

  /** The happenings are operations that ship what they commit, and steps of other collections. */
  ghost predicate ScriptOk(cells: map<string, Cell>, name: string, script: seq<Happening>) {
    forall i | 0 <= i < |script| :: HappeningOk(Others(cells, script, i), name, script[i])
  }

  ghost predicate HappeningOk(cells: map<string, Cell>, name: string, ev: Happening) {
    match ev
    case Mine(a) => Sane(a) && Ships(a)
    case Foreign(m, a, next, answer, lines) =>
      && m != name && m in cells && Ships(a) && lines == Ship(cells[m].now, next)
      && Ran(cells[m].cfg, a, cells[m].now, next, answer)
  }

  function LabelOf(name: string, ev: Happening, answer: bool): Label {
    match ev
    case Mine(a) => Label(name, a, answer)
    case Foreign(m, a, _, answer', _) => Label(m, a, answer')
  }

  /** The run's steps are those of the script, with these answers. */
  ghost predicate Follows(name: string, script: seq<Happening>, answers: seq<bool>, run: seq<Node>, labels: seq<Label>) {
    && |labels| == |answers| <= |script| && |run| == |answers| + 1 && NodeRun(run, labels)
    && (forall i | 0 <= i < |answers| :: labels[i] == LabelOf(name, script[i], answers[i]))
    && OthersAre(run[|answers|].cells, Others(run[0].cells, script, |answers|), name)
  }

  ghost predicate OthersAre(cells: map<string, Cell>, others: map<string, Cell>, name: string) {
    forall m | m in others && m != name :: m in cells && cells[m] == others[m]
  }

  lemma FollowsMore(name: string, script: seq<Happening>, answers: seq<bool>, run: seq<Node>, labels: seq<Label>, y: Node,
                    answer: bool)
    requires Follows(name, script, answers, run, labels) && |answers| < |script|
    requires Moves(run[|answers|], y, LabelOf(name, script[|answers|], answer))
    requires OthersAre(y.cells, Others(run[0].cells, script, |answers| + 1), name)
    ensures Follows(name, script, answers + [answer], run + [y], labels + [LabelOf(name, script[|answers|], answer)])
  {
    hide NodeRun, Moves, OthersAre, Others, LabelOf;
    Snapshots.RunSnoc(run, labels, y, LabelOf(name, script[|answers|], answer));
  }

  /** A step of the collection at hand leaves the others alone. */
  lemma MineMoved(name: string, script: seq<Happening>, answers: seq<bool>, run: seq<Node>, labels: seq<Label>, y: Node,
                  answer: bool)
    requires Follows(name, script, answers, run, labels) && |answers| < |script| && script[|answers|].Mine?
    requires Moves(run[|answers|], y, Label(name, script[|answers|].a, answer))
    ensures Follows(name, script, answers + [answer], run + [y], labels + [Label(name, script[|answers|].a, answer)])
  {
    hide NodeRun, Ran, Ships;
    FollowsMore(name, script, answers, run, labels, y, answer);
  }

  /** Another collection's step, published. */
  method DoOther(b: Broker, name: string, ev: Happening, ghost script: seq<Happening>, ghost answers: seq<bool>,
                 ghost run: seq<Node>,
                 ghost labels: seq<Label>)
    returns (answer: bool, ghost y: Node)
    requires b.Valid() && b.lsn == |b.log| && |answers| < |script| && ev == script[|answers|] && ev.Foreign?
    requires Follows(name, script, answers, run, labels) && run[|answers|].log == b.log && ScriptOk(run[0].cells, name, script)
    modifies b, b.ring
    ensures b.Valid() && b.ring == old(b.ring) && b.lsn == |b.log| && y.log == b.log
    ensures Follows(name, script, answers + [answer], run + [y], labels + [LabelOf(name, ev, answer)])
    ensures name in run[|answers|].cells ==> name in y.cells && y.cells[name] == run[|answers|].cells[name]
  {
    hide RingOk, StateOk, Follows, ScriptOk;
    y := OtherMoved(name, script, answers, run, labels);
    Publish(b, ev.collection, ev.lines);
    answer := ev.answer;
  }

  /** The node after another collection's step. */
  lemma OtherMoved(name: string, script: seq<Happening>, answers: seq<bool>, run: seq<Node>, labels: seq<Label>)
    returns (y: Node)
    requires |answers| < |script| && script[|answers|].Foreign?
    requires Follows(name, script, answers, run, labels) && ScriptOk(run[0].cells, name, script)
    ensures var ev := script[|answers|];
            && y.log == Shipped(run[|answers|].log, ev.collection, ev.lines)
            && Follows(name, script, answers + [ev.answer], run + [y], labels + [LabelOf(name, ev, ev.answer)])
            && (name in run[|answers|].cells ==> name in y.cells && y.cells[name] == run[|answers|].cells[name])
  {
    hide Ran, Ships, Shipped, NodeRun, Sane, NodeOk;
    var i := |answers|;
    var ev, x, others := script[i], run[i], Others(run[0].cells, script, i);
    var m := ev.collection;
    assert HappeningOk(others, name, ev);
    assert x.cells[m] == others[m];
    y := Node(Shipped(x.log, m, ev.lines), x.cells[m := Cell(x.cells[m].cfg, ev.next)]);
    FollowsMore(name, script, answers, run, labels, y, ev.answer);
  }

  /** Any run of a collection beside any steps of others, up to the end of a pass that overwrites
      the active segment or drops one: it is a run of the node, the script step by step. At its
      end the live view is the state the published log gives the collection, and so is what a
      copy of its segment files replays to, also while a pass is under way. */
  method AnyRun(b: Broker, name: string, c: Collection, d: Directory, script: seq<Happening>, ghost node: Node)
    returns (answers: seq<bool>, broke: bool, files: Files, ghost run: seq<Node>, ghost labels: seq<Label>)
    requires b.Valid() && b.lsn == |b.log| && Running(c, d, map[], None, [], 0) && NodeOk(node)
    requires ScriptOk(node.cells, name, script)
    requires node.log == b.log && name in node.cells && node.cells[name] == CellOf(c, map[], None, [])
    modifies b, b.ring, c, c.sidx.Values, d
    ensures b.Valid() && b.lsn == |b.log|
    ensures Follows(name, script, answers, run, labels) && run[0] == node && run[|answers|].log == b.log
    ensures broke ==>
              && |answers| < |script| && script[|answers|].Mine? && script[|answers|].a.FinishCompact?
              && name in run[|answers|].cells && Breaks(run[|answers|].cells[name].now)
    ensures !broke ==>
              && |answers| == |script| && c.Valid() && Agreement(c) && name in run[|answers|].cells
              && HasState(run[|answers|].cells[name], c)
              && c.view == Leader(b.log, |b.log|, name)
              && Ascending(c.sealed + [c.active]) && files == FilesOf(c.sealed + [c.active])
              && (NameOrdered(c.sealed + [c.active]) ==> Found(files) == Leader(b.log, |b.log|, name))
  {
    hide Running, RingOk, StateOk, Ran, Breaks, LeftCollided, LeftDropped, Shipped, Follows, NodeOk, ScriptOk, Agreement,
         Leader, Found, FilesOf, NameOrdered, Ascending, Moves, Sane, Ships;
    var open: Open, pass: Option<Pass> := map[], None;
    ghost var out: seq<Entry>, began: nat := [], 0;
    answers, files, broke := [], map[], false;
    run, labels := [node], [];
    FollowsNone(name, script, node);
    for i := 0 to |script|
      invariant b.Valid() && b.ring == old(b.ring) && b.lsn == |b.log|
      invariant Running(c, d, open, pass, out, began) && fresh(c.sidx.Values - old(c.sidx.Values))
      invariant |answers| == |labels| == i && |run| == i + 1 && Follows(name, script, answers, run, labels) && run[0] == node
      invariant run[i].log == b.log && name in run[i].cells && run[i].cells[name] == CellOf(c, open, pass, out)
    {
      ghost var y;
      var answer;
      HappensOk(node.cells, name, script, i);
      match script[i] {
        case Mine(a) =>
          open, pass, answer, broke, out, began, y := DoOne(b, name, c, d, open, pass, a, out, began, run[i]);
          if broke {
            return;
          }
          MineMoved(name, script, answers, run, labels, y, answer);
          labels := labels + [Label(name, a, answer)];
        case Foreign(_, _, _, _, _) =>
          answer, y := DoOther(b, name, script[i], script, answers, run, labels);
          labels := labels + [LabelOf(name, script[i], answer)];
      }
      answers, run := answers + [answer], run + [y];
    }
    EndOfScript(b, name, c, d, open, pass, out, began, script, answers, run, labels);
    files := CopySegments(d, c.sealed + [c.active]);
  }

  /** A new leader with one empty collection: every run starts from such a node. */
  method NewNode(cfg: Config, name: string, ringSize: nat, subBuf: nat)
    returns (b: Broker, c: Collection, d: Directory, ghost node: Node)
    requires ringSize > 0
    ensures fresh(b) && fresh(c) && fresh(d) && b.Valid() && b.lsn == |b.log| && Running(c, d, map[], None, [], 0)
    ensures NodeOk(node) && node.log == b.log && node.cells == map[name := CellOf(c, map[], None, [])]
  {
    hide Core, Tracks, TotalBytes, HeldLive, RingOk, StateOk;
    b := new Broker(ringSize, subBuf);
    var first := Segment(1, []);
    EntriesSnoc([], first);
    NothingWellFormed();
    c := OpenCollection(cfg, [], first, None, map[]);
    d := new Directory([] + [first]);
    NoneOpen(c.view, c.idSeq);
    node := Node([], map[name := CellOf(c, map[], None, [])]);
  }

  lemma FollowsNone(name: string, script: seq<Happening>, node: Node)
    requires NodeOk(node)
    ensures Follows(name, script, [], [node], [])
  {
  }

  lemma HappensOk(cells: map<string, Cell>, name: string, script: seq<Happening>, i: nat)
    requires ScriptOk(cells, name, script) && i < |script|
    ensures script[i].Mine? ==> Sane(script[i].a) && Ships(script[i].a)
  {
    assert HappeningOk(Others(cells, script, i), name, script[i]);
  }

  lemma EndOfScript(b: Broker, name: string, c: Collection, d: Directory, open: Open, pass: Option<Pass>, out: seq<Entry>,
                    began: nat,
                    script: seq<Happening>, answers: seq<bool>, run: seq<Node>, labels: seq<Label>)
    requires Running(c, d, open, pass, out, began) && Follows(name, script, answers, run, labels) && run[|answers|].log == b.log
    requires name in run[|answers|].cells && run[|answers|].cells[name] == CellOf(c, open, pass, out)
    ensures c.Valid() && Agreement(c) && c.view == Leader(b.log, |b.log|, name)
    ensures Ascending(c.sealed + [c.active]) && SegsAre(d.files, c.sealed + [c.active])
    ensures NameOrdered(c.sealed + [c.active]) ==> Found(FilesOf(c.sealed + [c.active])) == Leader(b.log, |b.log|, name)
  {
    hide Core, Tracks, TotalBytes, HeldLive, Agreement, Leader, Found, FilesOf, NameOrdered, Ran, Reservations, NodeOk, Moves,
         Holding, WritingSince, TempFiles, Ascending;
    ValidAgrees(c);
    RunGrows(run, labels, 0, |answers|);
    CopyOfCell(run[|answers|], name);
    CellView(c, open, pass, out, run[|answers|], name);
    FilesAreSegs(d, c.sealed, c.active, pass);
    FilesOfAre(c.sealed + [c.active]);
    if NameOrdered(c.sealed + [c.active]) { FoundInLayout(FilesOf(c.sealed + [c.active]), c.sealed + [c.active]); }
  }

  lemma CellView(c: Collection, open: Open, pass: Option<Pass>, out: seq<Entry>, x: Node, name: string)
    requires c.Valid() && name in x.cells && x.cells[name] == CellOf(c, open, pass, out)
    ensures c.view == Replay(Entries(c.sealed + [c.active])) && Segs(x.cells[name]) == c.sealed + [c.active]
  {
    CoreView(c.cfg.len, c.sealed + [c.active], c.log, c.index, c.idSeq, c.hist, c.view);
  }

  lemma FilesAreSegs(d: Directory, sealed: seq<Segment>, active: Segment, pass: Option<Pass>)
    requires FilesAre(d, sealed, active, pass)
    ensures Ascending(sealed + [active]) && SegsAre(d.files, sealed + [active])
  {
    var f := FilesOf(sealed + [active]);
    FilesOfAre(sealed + [active]);
    if pass.Some? { TempFilesAre(pass.value.temps); }
  }

  /** writeSnapshot: copy every file but the temps of a pass that may be under way, and leave
      its manifest out. */
  method CopySegments(d: Directory, ghost segs: seq<Segment>) returns (copy: Files)
    requires Ascending(segs) && SegsAre(d.files, segs)
    ensures copy == FilesOf(segs)
  {
    copy := map[];
    var todo := d.files.Keys;
    while todo != {}
      invariant todo <= d.files.Keys
      invariant forall x | x in copy :: x in d.files && x.Seg? && x !in todo && copy[x] == d.files[x]
      invariant forall x | x in d.files && x !in todo && x.Seg? :: x in copy
      decreases todo
    {
      var x :| x in todo;
      todo := todo - {x};
      if !x.IsTemp() {
        copy := copy[x := d.files[x]];
      }
    }
    assert copy == Copied(d.files);
    CopiedLayout(d.files, segs);
  }
}
