/**
  The decision lock: an inventory of inherited files with their pinned contents.
  `Update` rebuilds it from a tree and the pinned upstream tree; `Problems` is the
  offline gate.
*/
module DecisionLock {
  import opened Lex
  import opened Wrappers

  /** Path to blob hash. */
  type Tree = map<string, string>

  /** One inventoried file; `delta` is the stated reason of a divergence. */
  datatype Entry = Entry(
    path: string, group: string, blob: string,
    upstreamPath: Option<string>, upstreamBlob: Option<string>, delta: Option<string>)

  /** Numbers claimed by several records, with the file names (a sorted list is its
      multiset), and numbers skipped. */
  datatype Numbering = Numbering(collisions: map<nat, multiset<string>>, gaps: set<nat>)

  datatype Lock = Lock(entries: seq<Entry>, numbering: Numbering)

  /** How text is read: the group whose patterns match a path, the record number in it, its
      file name, and whether a reason is blank. */
  datatype Rules = Rules(
    group: string -> Option<string>, number: string -> Option<nat>, base: string -> string, blank: string -> bool)

  datatype Problem =
    | Absent(path: string)
    | Uncommitted(path: string)
    | ContentChanged(path: string)
    | NoReason(path: string)
    | NotInventoried(path: string)
    | NewCollision(number: nat)
    | CollisionChanged(number: nat)
    | UnknownGap(number: nat)

  predicate Covered(x: Rules, path: string) {
    x.group(path).Some?
  }

  // ----- Checks A to C: presence, content, stated divergence -----

  predicate Diverges(e: Entry) {
    e.upstreamBlob.Some? && e.upstreamBlob.value != "" && e.blob != e.upstreamBlob.value
  }

  predicate Explained(x: Rules, e: Entry) {
    e.delta.Some? && !x.blank(e.delta.value)
  }

  function EntryProblems(x: Rules, e: Entry, tree: Tree, dirty: set<string>): (ps: seq<Problem>)
    ensures |ps| <= 1
  {
    if e.path !in tree then [Absent(e.path)]
    else if tree[e.path] != e.blob then [if e.path in dirty then Uncommitted(e.path) else ContentChanged(e.path)]
    else if Diverges(e) && !Explained(x, e) then [NoReason(e.path)]
    else []
  }

  function EntriesProblems(x: Rules, entries: seq<Entry>, tree: Tree, dirty: set<string>): seq<Problem> {
    if entries == [] then []
    else EntriesProblems(x, entries[..|entries| - 1], tree, dirty) + EntryProblems(x, entries[|entries| - 1], tree, dirty)
  }

  /** `check_entries`. */
  method CheckEntries(x: Rules, entries: seq<Entry>, tree: Tree, dirty: set<string>) returns (problems: seq<Problem>)
    ensures problems == EntriesProblems(x, entries, tree, dirty)
  {
    problems := [];
    for i := 0 to |entries|
      invariant problems == EntriesProblems(x, entries[..i], tree, dirty)
    {
      assert entries[..i + 1][..i] == entries[..i];
      var e := entries[i];
      if e.path !in tree {
        problems := problems + [Absent(e.path)];
        continue;
      }
      if tree[e.path] != e.blob {
        problems := problems + [if e.path in dirty then Uncommitted(e.path) else ContentChanged(e.path)];
        continue;
      }
      if e.upstreamBlob.Some? && e.upstreamBlob.value != "" && e.blob != e.upstreamBlob.value
         && !(e.delta.Some? && !x.blank(e.delta.value)) {
        problems := problems + [NoReason(e.path)];
      }
    }
    assert entries[..|entries|] == entries;
  }

  lemma {:induction false} EntryProblemListed(x: Rules, entries: seq<Entry>, tree: Tree, dirty: set<string>, p: Problem)
    ensures p in EntriesProblems(x, entries, tree, dirty) <==>
            exists i :: 0 <= i < |entries| && p in EntryProblems(x, entries[i], tree, dirty)
  {
    if entries != [] {
      var front := entries[..|entries| - 1];
      EntryProblemListed(x, front, tree, dirty, p);
      assert forall i :: 0 <= i < |front| ==> front[i] == entries[i];
    }
  }

  /** The entry of a path is reported, by the first of these that holds, as absent, as not committed,
      as changed, or as diverging without a reason. */
  lemma {:induction false} EntryProblemsMean(
    x: Rules, entries: seq<Entry>, tree: Tree, dirty: set<string>, path: string)
    ensures var ps := EntriesProblems(x, entries, tree, dirty);
            && (Absent(path) in ps <==> exists e :: e in entries && e.path == path && path !in tree)
            && (Uncommitted(path) in ps <==>
                  exists e :: e in entries && e.path == path && path in tree && e.blob != tree[path] && path in dirty)
            && (ContentChanged(path) in ps <==>
                  exists e :: e in entries && e.path == path && path in tree && e.blob != tree[path] && path !in dirty)
            && (NoReason(path) in ps <==>
                  exists e :: e in entries && e.path == path && path in tree && e.blob == tree[path] && Diverges(e)
                              && !Explained(x, e))
  {
    ProblemOfSomeEntry(x, entries, tree, dirty, Absent(path));
    ProblemOfSomeEntry(x, entries, tree, dirty, Uncommitted(path));
    ProblemOfSomeEntry(x, entries, tree, dirty, ContentChanged(path));
    ProblemOfSomeEntry(x, entries, tree, dirty, NoReason(path));
  }

  lemma ProblemOfSomeEntry(x: Rules, entries: seq<Entry>, tree: Tree, dirty: set<string>, p: Problem)
    ensures p in EntriesProblems(x, entries, tree, dirty) <==>
            exists e :: e in entries && p in EntryProblems(x, e, tree, dirty)
  {
    EntryProblemListed(x, entries, tree, dirty, p);
    if e :| e in entries && p in EntryProblems(x, e, tree, dirty) {
      var i :| 0 <= i < |entries| && entries[i] == e;
    }
  }

  // ----- Check D: coverage -----

  function Inventoried(entries: seq<Entry>): set<string> {
    set e | e in entries :: e.path
  }

  function Missing(x: Rules, entries: seq<Entry>, tree: Tree): set<string> {
    set p | p in tree && p !in Inventoried(entries) && Covered(x, p)
  }

  function CoverageProblems(x: Rules, entries: seq<Entry>, tree: Tree): (ps: seq<Problem>)
    ensures forall p :: p in ps <==> p.NotInventoried? && p.path in Missing(x, entries, tree)
  {
    var missing := Sorted(Missing(x, entries, tree));
    var ps := seq(|missing|, i requires 0 <= i < |missing| => NotInventoried(missing[i]));
    assert forall m :: m in missing ==> NotInventoried(m) in ps by {
      forall m | m in missing ensures NotInventoried(m) in ps {
        var i :| 0 <= i < |missing| && missing[i] == m;
        assert ps[i] == NotInventoried(m);
      }
    }
    ps
  }

  // ----- Check E: numbering -----

  /** The names of the files that claim a number. */
  function Claims(x: Rules, paths: seq<string>, n: nat): multiset<string> {
    if paths == [] then multiset{}
    else
      var p := paths[|paths| - 1];
      Claims(x, paths[..|paths| - 1], n) + (if x.number(p) == Some(n) then multiset{x.base(p)} else multiset{})
  }

  function Numbers(x: Rules, tree: Tree): set<nat> {
    set p | p in tree && x.number(p).Some? :: x.number(p).value
  }

  /** `upcr_numbering`. */
  function NumberingOf(x: Rules, tree: Tree): Numbering {
    var numbers, paths := Numbers(x, tree), Sorted(tree.Keys);
    Numbering(map n | n in numbers && |Claims(x, paths, n)| > 1 :: Claims(x, paths, n),
              set m, n | m in numbers && 1 <= n < m && n !in numbers :: n)
  }

  predicate Claim(x: Rules, p: string, n: nat) {
    x.number(p) == Some(n)
  }

  /** Two files claim the number. */
  predicate Collides(x: Rules, tree: Tree, n: nat) {
    exists p, q :: p in tree && q in tree && p != q && Claim(x, p, n) && Claim(x, q, n)
  }

  /** No file claims the number although one claims a higher one. */
  predicate IsGap(x: Rules, tree: Tree, n: nat) {
    n >= 1 && n !in Numbers(x, tree) && exists m :: m in Numbers(x, tree) && n < m
  }

  lemma {:induction false} ClaimsCount(x: Rules, paths: seq<string>, n: nat)
    ensures |Claims(x, paths, n)| >= 1 <==> exists i :: 0 <= i < |paths| && Claim(x, paths[i], n)
    ensures |Claims(x, paths, n)| >= 2 <==>
            exists i, j :: 0 <= i < j < |paths| && Claim(x, paths[i], n) && Claim(x, paths[j], n)
  {
    if paths != [] {
      var front := paths[..|paths| - 1];
      ClaimsCount(x, front, n);
      assert forall i :: 0 <= i < |front| ==> front[i] == paths[i];
    }
  }

  /** A number collides exactly when two files claim it, and is a gap exactly when no file
      claims it although one claims a higher number. */
  lemma {:induction false} NumberingMeaning(x: Rules, tree: Tree, n: nat)
    ensures n in NumberingOf(x, tree).collisions <==> Collides(x, tree, n)
    ensures n in NumberingOf(x, tree).gaps <==> IsGap(x, tree, n)
  {
    var paths := Sorted(tree.Keys);
    ClaimsCount(x, paths, n);
    if p, q :| p in tree && q in tree && p != q && Claim(x, p, n) && Claim(x, q, n) {
      var i :| 0 <= i < |paths| && paths[i] == p;
      var j :| 0 <= j < |paths| && paths[j] == q;
      assert n in Numbers(x, tree);
    }
    if i, j :| 0 <= i < j < |paths| && Claim(x, paths[i], n) && Claim(x, paths[j], n) {
      assert Less(paths[i], paths[j]);
      LessIrreflexive(paths[i]);
      assert paths[i] in tree && paths[j] in tree && paths[i] != paths[j];
    }
  }

  predicate NumberingProblem(known: Numbering, found: Numbering, p: Problem) {
    match p
    case NewCollision(n) => n in found.collisions && n !in known.collisions
    case CollisionChanged(n) => n in found.collisions && n in known.collisions && known.collisions[n] != found.collisions[n]
    case UnknownGap(n) => n in found.gaps && n !in known.gaps
    case _ => false
  }

  /** `check_upcr`. */
  method CheckNumbering(known: Numbering, found: Numbering) returns (problems: seq<Problem>)
    ensures forall p :: p in problems <==> NumberingProblem(known, found, p)
  {
    problems := [];
    var todo := found.collisions.Keys;
    while todo != {}
      invariant todo <= found.collisions.Keys
      invariant forall p :: p in problems <==>
          NumberingProblem(known, found, p) && (p.NewCollision? || p.CollisionChanged?) && p.number !in todo
      decreases |todo|
    {
      var n :| n in todo;
      if n !in known.collisions {
        problems := problems + [NewCollision(n)];
      } else if known.collisions[n] != found.collisions[n] {
        problems := problems + [CollisionChanged(n)];
      }
      todo := todo - {n};
    }
    var gaps := found.gaps;
    while gaps != {}
      invariant gaps <= found.gaps
      invariant forall p :: p in problems <==>
          NumberingProblem(known, found, p) && (p.UnknownGap? ==> p.number !in gaps)
      decreases |gaps|
    {
      var n :| n in gaps;
      if n !in known.gaps {
        problems := problems + [UnknownGap(n)];
      }
      gaps := gaps - {n};
    }
  }

  // ----- The gate -----

  /** Something the offline gate reports. */
  predicate Reports(x: Rules, lock: Lock, tree: Tree, dirty: set<string>, p: Problem) {
    || p in EntriesProblems(x, lock.entries, tree, dirty)
    || p in CoverageProblems(x, lock.entries, tree)
    || NumberingProblem(lock.numbering, NumberingOf(x, tree), p)
  }

  /** The offline part of `run`. */
  method Gate(x: Rules, lock: Lock, tree: Tree, dirty: set<string>) returns (problems: seq<Problem>)
    ensures forall p :: p in problems <==> Reports(x, lock, tree, dirty, p)
  {
    problems := CheckEntries(x, lock.entries, tree, dirty);
    var numbering := CheckNumbering(lock.numbering, NumberingOf(x, tree));
    problems := problems + CoverageProblems(x, lock.entries, tree) + numbering;
  }

  // ----- Update -----

  /** The entries by path; the last one of a path wins. */
  function Previous(entries: seq<Entry>): (m: map<string, Entry>)
    ensures m.Keys == Inventoried(entries)
    ensures forall p :: p in m ==> m[p].path == p
  {
    if entries == [] then map[]
    else
      var front, e := entries[..|entries| - 1], entries[|entries| - 1];
      assert forall d :: d in entries <==> d in front || d == e;
      Previous(front)[e.path := e]
  }

  /** The upstream path of a file: the recorded one, else its own. */
  function UpstreamPath(prior: map<string, Entry>, path: string): string {
    if path in prior && prior[path].upstreamPath.Some? then prior[path].upstreamPath.value else path
  }

  function NewEntry(x: Rules, prior: map<string, Entry>, path: string, tree: Tree, pinned: Tree): Entry
    requires path in tree && Covered(x, path)
  {
    var up := UpstreamPath(prior, path);
    Entry(path, x.group(path).value, tree[path],
          if up != path then Some(up) else None,
          if up in pinned then Some(pinned[up]) else None,
          if !(up in pinned && pinned[up] == tree[path]) && path in prior then prior[path].delta else None)
  }

  function NewEntries(x: Rules, prior: map<string, Entry>, paths: seq<string>, tree: Tree, pinned: Tree): seq<Entry>
    requires forall p :: p in paths ==> p in tree
  {
    if paths == [] then []
    else
      var p := paths[|paths| - 1];
      NewEntries(x, prior, paths[..|paths| - 1], tree, pinned)
      + (if Covered(x, p) then [NewEntry(x, prior, p, tree, pinned)] else [])
  }

  function Updated(x: Rules, lock: Lock, tree: Tree, pinned: Tree): Lock {
    Lock(NewEntries(x, Previous(lock.entries), Sorted(tree.Keys), tree, pinned), NumberingOf(x, tree))
  }

  /** The body of the loop of `update`, for a path some group matches. */
  method MakeEntry(x: Rules, previous: map<string, Entry>, path: string, tree: Tree, pinned: Tree) returns (entry: Entry)
    requires path in tree && Covered(x, path)
    ensures entry == NewEntry(x, previous, path, tree, pinned)
  {
    var up := UpstreamPath(previous, path);
    entry := Entry(path, x.group(path).value, tree[path], None, None, None);
    if up != path {
      entry := entry.(upstreamPath := Some(up));
    }
    if up in pinned {
      entry := entry.(upstreamBlob := Some(pinned[up]));
    }
    if !(up in pinned && pinned[up] == tree[path]) && path in previous && previous[path].delta.Some? {
      entry := entry.(delta := previous[path].delta);
    }
  }

  lemma NewEntriesOneMore(x: Rules, prior: map<string, Entry>, paths: seq<string>, i: nat, tree: Tree, pinned: Tree)
    requires i < |paths| && forall p :: p in paths ==> p in tree
    ensures NewEntries(x, prior, paths[..i + 1], tree, pinned) ==
            NewEntries(x, prior, paths[..i], tree, pinned)
            + (if Covered(x, paths[i]) then [NewEntry(x, prior, paths[i], tree, pinned)] else [])
  {
    assert paths[..i + 1][..i] == paths[..i];
  }

  /** `update`. */
  method Update(x: Rules, lock: Lock, tree: Tree, pinned: Tree) returns (updated: Lock)
    ensures updated == Updated(x, lock, tree, pinned)
  {
    var previous := Previous(lock.entries);
    var paths := Sorted(tree.Keys);
    var entries: seq<Entry> := [];
    for i := 0 to |paths|
      invariant entries == NewEntries(x, previous, paths[..i], tree, pinned)
    {
      NewEntriesOneMore(x, previous, paths, i, tree, pinned);
      if x.group(paths[i]).Some? {
        var entry := MakeEntry(x, previous, paths[i], tree, pinned);
        entries := entries + [entry];
      }
    }
    assert paths[..|paths|] == paths;
    updated := Lock(entries, NumberingOf(x, tree));
  }

  // ----- What update and the gate promise together -----

  lemma {:induction false} NewEntriesListed(
    x: Rules, prior: map<string, Entry>, paths: seq<string>, tree: Tree, pinned: Tree, e: Entry)
    requires forall p :: p in paths ==> p in tree
    ensures e in NewEntries(x, prior, paths, tree, pinned) <==>
            e.path in paths && Covered(x, e.path) && e == NewEntry(x, prior, e.path, tree, pinned)
  {
    if paths != [] {
      NewEntriesListed(x, prior, paths[..|paths| - 1], tree, pinned, e);
      assert forall p :: p in paths <==> p in paths[..|paths| - 1] || p == paths[|paths| - 1];
    }
  }

  /** A covered file differs from its pinned version and states no reason. */
  predicate Unexplained(x: Rules, lock: Lock, tree: Tree, pinned: Tree, path: string) {
    var prior := Previous(lock.entries);
    var up := UpstreamPath(prior, path);
    && path in tree && Covered(x, path)
    && up in pinned && pinned[up] != "" && pinned[up] != tree[path]
    && !(path in prior && Explained(x, prior[path]))
  }

  lemma UpdatedEntry(x: Rules, lock: Lock, tree: Tree, pinned: Tree, e: Entry)
    ensures e in Updated(x, lock, tree, pinned).entries <==>
            e.path in tree && Covered(x, e.path) && e == NewEntry(x, Previous(lock.entries), e.path, tree, pinned)
  {
    NewEntriesListed(x, Previous(lock.entries), Sorted(tree.Keys), tree, pinned, e);
  }

  lemma UpdatedCoversAll(x: Rules, lock: Lock, tree: Tree, pinned: Tree)
    ensures Missing(x, Updated(x, lock, tree, pinned).entries, tree) == {}
  {
    forall p | p in tree && Covered(x, p) ensures p in Inventoried(Updated(x, lock, tree, pinned).entries) {
      var e := NewEntry(x, Previous(lock.entries), p, tree, pinned);
      UpdatedEntry(x, lock, tree, pinned, e);
    }
  }

  lemma UpdatedEntryProblem(x: Rules, lock: Lock, tree: Tree, pinned: Tree, dirty: set<string>, p: Problem)
    ensures p in EntriesProblems(x, Updated(x, lock, tree, pinned).entries, tree, dirty) <==>
            p.NoReason? && Unexplained(x, lock, tree, pinned, p.path)
  {
    var entries := Updated(x, lock, tree, pinned).entries;
    EntryProblemListed(x, entries, tree, dirty, p);
    if i :| 0 <= i < |entries| && p in EntryProblems(x, entries[i], tree, dirty) {
      UpdatedEntry(x, lock, tree, pinned, entries[i]);
    }
    if p.NoReason? && Unexplained(x, lock, tree, pinned, p.path) {
      var e := NewEntry(x, Previous(lock.entries), p.path, tree, pinned);
      UpdatedEntry(x, lock, tree, pinned, e);
      var i :| 0 <= i < |entries| && entries[i] == e;
      assert p in EntryProblems(x, entries[i], tree, dirty);
    }
  }

  /** Right after an update, the gate on the same tree reports exactly the covered files that
      differ from the pin without a stated reason. */
  lemma {:induction false} GateAfterUpdate(x: Rules, lock: Lock, tree: Tree, pinned: Tree, dirty: set<string>, p: Problem)
    ensures Reports(x, Updated(x, lock, tree, pinned), tree, dirty, p) <==>
            p.NoReason? && Unexplained(x, lock, tree, pinned, p.path)
  {
    UpdatedEntryProblem(x, lock, tree, pinned, dirty, p);
    UpdatedCoversAll(x, lock, tree, pinned);
  }

  lemma {:induction false} PreviousFinds(entries: seq<Entry>, e: Entry)
    requires e in entries && forall d :: d in entries && d.path == e.path ==> d == e
    ensures e.path in Previous(entries) && Previous(entries)[e.path] == e
  {
    var front := entries[..|entries| - 1];
    assert entries[|entries| - 1] in entries && forall d :: d in front ==> d in entries;
    if entries[|entries| - 1].path != e.path {
      assert e in front;
      PreviousFinds(front, e);
    }
  }

  lemma {:induction false} SameNewEntries(x: Rules, prior: map<string, Entry>, later: map<string, Entry>,
                                          paths: seq<string>, tree: Tree, pinned: Tree)
    requires forall p :: p in paths ==> p in tree
    requires forall p :: p in paths && Covered(x, p) ==>
               NewEntry(x, prior, p, tree, pinned) == NewEntry(x, later, p, tree, pinned)
    ensures NewEntries(x, prior, paths, tree, pinned) == NewEntries(x, later, paths, tree, pinned)
  {
    if paths != [] {
      assert forall p :: p in paths[..|paths| - 1] ==> p in paths;
      SameNewEntries(x, prior, later, paths[..|paths| - 1], tree, pinned);
      assert paths[|paths| - 1] in paths;
    }
  }

  /** A second update with the same tree and pin changes nothing. */
  lemma {:induction false} UpdateIsIdempotent(x: Rules, lock: Lock, tree: Tree, pinned: Tree)
    ensures var u := Updated(x, lock, tree, pinned); Updated(x, u, tree, pinned) == u
  {
    var u := Updated(x, lock, tree, pinned);
    var prior, later := Previous(lock.entries), Previous(u.entries);
    forall p | p in Sorted(tree.Keys) && Covered(x, p)
      ensures NewEntry(x, later, p, tree, pinned) == NewEntry(x, prior, p, tree, pinned)
    {
      var e := NewEntry(x, prior, p, tree, pinned);
      UpdatedEntry(x, lock, tree, pinned, e);
      forall d | d in u.entries && d.path == e.path ensures d == e {
        UpdatedEntry(x, lock, tree, pinned, d);
      }
      PreviousFinds(u.entries, e);
    }
    SameNewEntries(x, later, prior, Sorted(tree.Keys), tree, pinned);
  }

  /** What an update writes for a covered file: its content, the upstream path recorded before or else
      its own, the pinned content of that path, and the reason stated before unless the two contents
      are equal. */
  lemma {:induction false} UpdatedEntryMeaning(x: Rules, lock: Lock, tree: Tree, pinned: Tree, e: Entry)
    requires e in Updated(x, lock, tree, pinned).entries
    ensures var prior := Previous(lock.entries);
            var up := if e.upstreamPath.Some? then e.upstreamPath.value else e.path;
            && e.path in tree && e.blob == tree[e.path] && x.group(e.path) == Some(e.group)
            && up == (if e.path in prior && prior[e.path].upstreamPath.Some? then prior[e.path].upstreamPath.value
                      else e.path)
            && (up in pinned <==> e.upstreamBlob.Some?) && (up in pinned ==> e.upstreamBlob.value == pinned[up])
            && (if up in pinned && pinned[up] == tree[e.path] then e.delta == None
                else e.delta == if e.path in prior then prior[e.path].delta else None)
  {
    UpdatedEntry(x, lock, tree, pinned, e);
  }

  lemma UpdatedPrevious(x: Rules, lock: Lock, tree: Tree, pinned: Tree, path: string)
    requires path in tree && Covered(x, path)
    ensures var later := Previous(Updated(x, lock, tree, pinned).entries);
            path in later && later[path] == NewEntry(x, Previous(lock.entries), path, tree, pinned)
  {
    var u, e := Updated(x, lock, tree, pinned), NewEntry(x, Previous(lock.entries), path, tree, pinned);
    UpdatedEntry(x, lock, tree, pinned, e);
    forall d | d in u.entries && d.path == e.path ensures d == e {
      UpdatedEntry(x, lock, tree, pinned, d);
    }
    PreviousFinds(u.entries, e);
  }

  /** A reason lasts only as long as its divergence: after an update on a tree where the file equals its
      pin, an update on one where it does not is reported, whatever reason was stated before. */
  lemma {:induction false} ReasonsDoNotOutlive(
    x: Rules, lock: Lock, tree: Tree, tree': Tree, pinned: Tree, dirty: set<string>, path: string)
    requires path in tree && path in tree' && Covered(x, path)
    requires var up := UpstreamPath(Previous(lock.entries), path);
             up in pinned && pinned[up] != "" && tree[path] == pinned[up] && tree'[path] != pinned[up]
    ensures Reports(x, Updated(x, Updated(x, lock, tree, pinned), tree', pinned), tree', dirty, NoReason(path))
  {
    var u := Updated(x, lock, tree, pinned);
    UpdatedPrevious(x, lock, tree, pinned, path);
    EqualEntry(x, Previous(lock.entries), path, tree, pinned);
    DivergesUnexplained(x, u, Previous(u.entries), tree', pinned, path);
    GateAfterUpdate(x, u, tree', pinned, dirty, NoReason(path));
  }

  lemma EqualEntry(x: Rules, prior: map<string, Entry>, path: string, tree: Tree, pinned: Tree)
    requires path in tree && Covered(x, path)
    requires UpstreamPath(prior, path) in pinned && pinned[UpstreamPath(prior, path)] == tree[path]
    ensures NewEntry(x, prior, path, tree, pinned).delta == None
    ensures UpstreamPath(map[path := NewEntry(x, prior, path, tree, pinned)], path) == UpstreamPath(prior, path)
  {
  }

  lemma DivergesUnexplained(x: Rules, u: Lock, prior: map<string, Entry>, tree: Tree, pinned: Tree, path: string)
    requires prior == Previous(u.entries) && path in prior && prior[path].delta == None
    requires path in tree && Covered(x, path)
    requires var up := UpstreamPath(map[path := prior[path]], path);
             up in pinned && pinned[up] != "" && pinned[up] != tree[path]
    ensures Unexplained(x, u, tree, pinned, path)
  {
    assert UpstreamPath(map[path := prior[path]], path) == UpstreamPath(prior, path);
  }

  /** The file names claiming a number are counted file by file. */
  lemma {:induction false} ClaimsAreCounted(x: Rules, s: set<string>, n: nat, name: string)
    ensures Claims(x, Sorted(s), n)[name] == |set p | p in s && Claim(x, p, n) && x.base(p) == name|
    decreases |s|
  {
    if s != {} {
      var p := Least(s);
      ClaimsOfLeast(x, s, n);
      ClaimsAreCounted(x, s - {p}, n, name);
      OneMoreClaim(x, s, n, name, p);
    } else {
      assert (set p | p in s && Claim(x, p, n) && x.base(p) == name) == {};
    }
  }

  lemma OneMoreClaim(x: Rules, s: set<string>, n: nat, name: string, p: string)
    requires p in s
    ensures |set q | q in s && Claim(x, q, n) && x.base(q) == name| ==
            |set q | q in s - {p} && Claim(x, q, n) && x.base(q) == name|
            + (if Claim(x, p, n) && x.base(p) == name then 1 else 0)
  {
    var all := set q | q in s && Claim(x, q, n) && x.base(q) == name;
    var rest := set q | q in s - {p} && Claim(x, q, n) && x.base(q) == name;
    if Claim(x, p, n) && x.base(p) == name {
      assert all == rest + {p};
    } else {
      assert all == rest;
    }
  }

  // ----- Nothing slips by a passing lock -----

  /** Entries and coverage report nothing. */
  predicate Clean(x: Rules, entries: seq<Entry>, tree: Tree, dirty: set<string>) {
    EntriesProblems(x, entries, tree, dirty) == [] && CoverageProblems(x, entries, tree) == []
  }

  lemma CleanEntry(x: Rules, entries: seq<Entry>, tree: Tree, dirty: set<string>, e: Entry)
    requires EntriesProblems(x, entries, tree, dirty) == [] && e in entries
    ensures e.path in tree && tree[e.path] == e.blob && (Diverges(e) ==> Explained(x, e))
  {
  }

  lemma CleanCoverage(x: Rules, entries: seq<Entry>, tree: Tree)
    ensures CoverageProblems(x, entries, tree) == [] <==>
            forall p :: p in tree && Covered(x, p) ==> p in Inventoried(entries)
  {
    var ps := CoverageProblems(x, entries, tree);
    if ps == [] {
      forall p | p in tree && Covered(x, p) ensures p in Inventoried(entries) {
        assert NotInventoried(p) !in ps;
      }
    } else {
      assert ps[0] in ps;
    }
  }

  lemma NoEntryProblems(x: Rules, entries: seq<Entry>, tree: Tree, dirty: set<string>)
    requires forall e :: e in entries ==> EntryProblems(x, e, tree, dirty) == []
    ensures EntriesProblems(x, entries, tree, dirty) == []
  {
  }

  /** The trees are the same on every covered and every inventoried path. */
  ghost predicate SameInScope(x: Rules, entries: seq<Entry>, tree: Tree, tree': Tree) {
    forall p :: Covered(x, p) || p in Inventoried(entries) ==> SameAt(tree, tree', p)
  }

  lemma CleanLockSeesEveryChange(
    x: Rules, entries: seq<Entry>, tree: Tree, tree': Tree, dirty: set<string>, dirty': set<string>)
    requires Clean(x, entries, tree, dirty)
    ensures Clean(x, entries, tree', dirty') <==> SameInScope(x, entries, tree, tree')
  {
    CleanCoverage(x, entries, tree);
    CleanCoverage(x, entries, tree');
    forall e | e in entries ensures e.path in tree && tree[e.path] == e.blob && (Diverges(e) ==> Explained(x, e)) {
      CleanEntry(x, entries, tree, dirty, e);
    }
    if Clean(x, entries, tree', dirty') {
      forall p | Covered(x, p) || p in Inventoried(entries) ensures SameAt(tree, tree', p) {
        if e :| e in entries && e.path == p {
          CleanEntry(x, entries, tree', dirty', e);
        }
      }
    }
    if SameInScope(x, entries, tree, tree') {
      forall e | e in entries ensures EntryProblems(x, e, tree', dirty') == [] {
        assert SameAt(tree, tree', e.path);
      }
      NoEntryProblems(x, entries, tree', dirty');
      forall p | p in tree' && Covered(x, p) ensures p in Inventoried(entries) {
        assert SameAt(tree, tree', p);
      }
    }
  }

  /** The gate reports nothing. */
  ghost predicate Passes(x: Rules, lock: Lock, tree: Tree, dirty: set<string>) {
    forall p :: !Reports(x, lock, tree, dirty, p)
  }

  /** Each number claimed by two files is a known collision of exactly those file names, and
      each gap is known. */
  ghost predicate NumberingKnown(x: Rules, known: Numbering, tree: Tree) {
    && (forall n: nat :: Collides(x, tree, n) ==>
          n in known.collisions && known.collisions[n] == Claims(x, Sorted(tree.Keys), n))
    && (forall n: nat :: IsGap(x, tree, n) ==> n in known.gaps)
  }

  predicate Knows(known: Numbering, found: Numbering) {
    && (forall n :: n in found.collisions ==> n in known.collisions && known.collisions[n] == found.collisions[n])
    && found.gaps <= known.gaps
  }

  lemma KnowsMeaning(known: Numbering, found: Numbering)
    ensures Knows(known, found) <==> forall p :: !NumberingProblem(known, found, p)
  {
    if n :| n in found.gaps && n !in known.gaps {
      assert NumberingProblem(known, found, UnknownGap(n));
    }
    if n :| n in found.collisions && !(n in known.collisions && known.collisions[n] == found.collisions[n]) {
      assert NumberingProblem(known, found, if n in known.collisions then CollisionChanged(n) else NewCollision(n));
    }
  }

  lemma NumberingKnownMeaning(x: Rules, known: Numbering, tree: Tree)
    ensures NumberingKnown(x, known, tree) <==> Knows(known, NumberingOf(x, tree))
  {
    forall n: nat
      ensures n in NumberingOf(x, tree).collisions <==> Collides(x, tree, n)
      ensures n in NumberingOf(x, tree).gaps <==> IsGap(x, tree, n) {
      NumberingMeaning(x, tree, n);
    }
  }

  lemma PassesMeaning(x: Rules, lock: Lock, tree: Tree, dirty: set<string>)
    ensures Passes(x, lock, tree, dirty) <==>
            Clean(x, lock.entries, tree, dirty) && NumberingKnown(x, lock.numbering, tree)
  {
    NumberingKnownMeaning(x, lock.numbering, tree);
    KnowsMeaning(lock.numbering, NumberingOf(x, tree));
    var es, cs := EntriesProblems(x, lock.entries, tree, dirty), CoverageProblems(x, lock.entries, tree);
    if es != [] {
      assert Reports(x, lock, tree, dirty, es[0]);
    }
    if cs != [] {
      assert Reports(x, lock, tree, dirty, cs[0]);
    }
    if p :| NumberingProblem(lock.numbering, NumberingOf(x, tree), p) {
      assert Reports(x, lock, tree, dirty, p);
    }
  }

  /** From a lock whose gate passes on one tree, the gate passes on another exactly when that
      one is the same on every covered and every inventoried path and brings no unknown
      collision or gap: any file added, removed or changed there is reported. */
  lemma {:induction false} PassingLockSeesEveryChange(
    x: Rules, lock: Lock, tree: Tree, tree': Tree, dirty: set<string>, dirty': set<string>)
    requires Passes(x, lock, tree, dirty)
    ensures Passes(x, lock, tree', dirty') <==>
            SameInScope(x, lock.entries, tree, tree') && NumberingKnown(x, lock.numbering, tree')
  {
    PassesMeaning(x, lock, tree, dirty);
    PassesMeaning(x, lock, tree', dirty');
    CleanLockSeesEveryChange(x, lock.entries, tree, tree', dirty, dirty');
  }

  lemma {:induction false} ClaimsConcat(x: Rules, a: seq<string>, b: seq<string>, n: nat)
    ensures Claims(x, a + b, n) == Claims(x, a, n) + Claims(x, b, n)
  {
    if b == [] {
      assert a + b == a;
    } else {
      assert (a + b)[..|a + b| - 1] == a + b[..|b| - 1];
      ClaimsConcat(x, a, b[..|b| - 1], n);
    }
  }

  function Claimants(x: Rules, s: set<string>, n: nat): set<string> {
    set p | p in s && Claim(x, p, n)
  }

  lemma ClaimsOfLeast(x: Rules, s: set<string>, n: nat)
    requires s != {}
    ensures var p := Least(s);
            Claims(x, Sorted(s), n) ==
            (if Claim(x, p, n) then multiset{x.base(p)} else multiset{}) + Claims(x, Sorted(s - {p}), n)
  {
    var p := Least(s);
    assert Sorted(s) == [p] + Sorted(s - {p});
    ClaimsConcat(x, [p], Sorted(s - {p}), n);
    assert [p][..0] == [];
    assert Claims(x, [p], n) == Claims(x, [], n) + (if Claim(x, p, n) then multiset{x.base(p)} else multiset{});
  }

  lemma LeastClaimant(x: Rules, s: set<string>, n: nat)
    requires s != {} && Claim(x, Least(s), n)
    ensures Claimants(x, s, n) != {} && Least(Claimants(x, s, n)) == Least(s)
  {
    var c := Claimants(x, s, n);
    assert IsLeast(Least(s), c);
    LeastUnique(c, Least(s), Least(c));
  }

  /** Only the files that claim a number matter to it. */
  lemma {:induction false} ClaimsOfClaimants(x: Rules, s: set<string>, n: nat)
    ensures Claims(x, Sorted(s), n) == Claims(x, Sorted(Claimants(x, s, n)), n)
    decreases |s|
  {
    var c := Claimants(x, s, n);
    if s != {} {
      var p := Least(s);
      ClaimsOfLeast(x, s, n);
      ClaimsOfClaimants(x, s - {p}, n);
      if Claim(x, p, n) {
        LeastClaimant(x, s, n);
        ClaimsOfLeast(x, c, n);
        assert c - {p} == Claimants(x, s - {p}, n);
      } else {
        assert c == Claimants(x, s - {p}, n);
      }
    } else {
      assert c == s;
    }
  }

  lemma SameRecordsSameNumbering(x: Rules, known: Numbering, tree: Tree, tree': Tree)
    requires forall p :: x.number(p).Some? ==> (p in tree <==> p in tree')
    ensures NumberingKnown(x, known, tree) <==> NumberingKnown(x, known, tree')
  {
    assert Numbers(x, tree) == Numbers(x, tree');
    forall n: nat ensures Claims(x, Sorted(tree.Keys), n) == Claims(x, Sorted(tree'.Keys), n) {
      assert Claimants(x, tree.Keys, n) == Claimants(x, tree'.Keys, n);
      ClaimsOfClaimants(x, tree.Keys, n);
      ClaimsOfClaimants(x, tree'.Keys, n);
    }
    assert forall n: nat :: Collides(x, tree, n) <==> Collides(x, tree', n);
    assert forall n: nat :: IsGap(x, tree, n) <==> IsGap(x, tree', n);
  }

  /** Where the groups cover every numbered record, the numbering adds nothing: the gate passes
      exactly on the trees that are the same in scope. */
  lemma {:induction false} CoveredRecordsArePinned(
    x: Rules, lock: Lock, tree: Tree, tree': Tree, dirty: set<string>, dirty': set<string>)
    requires Passes(x, lock, tree, dirty) && forall p :: x.number(p).Some? ==> Covered(x, p)
    ensures Passes(x, lock, tree', dirty') <==> SameInScope(x, lock.entries, tree, tree')
  {
    PassesMeaning(x, lock, tree, dirty);
    PassingLockSeesEveryChange(x, lock, tree, tree', dirty, dirty');
    if SameInScope(x, lock.entries, tree, tree') {
      assert forall p :: x.number(p).Some? ==> SameAt(tree, tree', p);
      SameRecordsSameNumbering(x, lock.numbering, tree, tree');
    }
  }
}
