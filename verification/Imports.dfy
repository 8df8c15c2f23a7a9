/** Import resolution of the device model loader: a param that imports a file is replaced by
    the file, whose own imports are relative to it. */
module Imports {
  import opened Types

  /** A param or command, or a whole file: what it imports, its sub-params, its
      sub-commands, and the rest of it. */
  datatype Param = Param(rest: string, imports: Option<string>, params: Table, commands: Table)
  datatype Table = Absent | Table(entries: seq<Entry>)
  datatype Entry = Entry(name: string, param: Param)

  datatype Error = InvalidResource | InvalidUrl | NotAParamFile | TooDeep
  datatype Result<+T> = Done(value: T) | Throws(error: Error)

  /** The validator, which reads a file for a schema, and the rules of URLs. */
  datatype World = World(
    validate: (string, string) -> Option<Param>,
    resolve: (string, string) -> Option<string>,
    isParamFile: string -> bool)

  const MAX_RESOLVE_DEPTH := 100

  /** No param file consists of an import. */
  ghost predicate Clean(w: World) {
    forall url :: w.validate("param", url).Some? ==> w.validate("param", url).value.imports.None?
  }

  // ------------------------------------------------------------- what is meant

  /** `q` is what `p`, standing in the file `url`, expands to. */
  ghost predicate Expands(w: World, p: Param, url: string, q: Param)
    decreases q, 1
  {
    match p.imports
    case None => BodyExpands(w, p, url, q)
    case Some(relative) =>
      match w.resolve(relative, url)
      case None => false
      case Some(target) =>
        && w.isParamFile(target)
        && w.validate("param", target).Some?
        && BodyExpands(w, w.validate("param", target).value, target, q)
  }

  ghost predicate BodyExpands(w: World, p: Param, url: string, q: Param)
    decreases q, 0
  {
    && q.rest == p.rest && q.imports == p.imports
    && TableExpands(w, p.params, url, q.params)
    && TableExpands(w, p.commands, url, q.commands)
  }

  ghost predicate TableExpands(w: World, p: Table, url: string, q: Table)
    decreases q
  {
    match q
    case Absent => p.Absent?
    case Table(qs) =>
      && p.Table? && |p.entries| == |qs|
      && forall k :: 0 <= k < |qs| ==>
           p.entries[k].name == qs[k].name && Expands(w, p.entries[k].param, url, qs[k].param)
  }

  /** Walking the tree from this depth stays within the bound. An empty table counts. */
  ghost predicate Fits(q: Table, depth: nat)
    decreases q
  {
    match q
    case Absent => true
    case Table(qs) => depth <= MAX_RESOLVE_DEPTH && forall k :: 0 <= k < |qs| ==> BodyFits(qs[k].param, depth + 1)
  }

  ghost predicate BodyFits(q: Param, depth: nat)
    decreases q
  {
    Fits(q.params, depth) && Fits(q.commands, depth)
  }

  ghost predicate NoImports(q: Param)
    decreases q
  {
    q.imports.None? && NoneIn(q.params) && NoneIn(q.commands)
  }

  ghost predicate NoneIn(q: Table)
    decreases q
  {
    match q
    case Absent => true
    case Table(qs) => forall k :: 0 <= k < |qs| ==> NoImports(qs[k].param)
  }

  // ------------------------------------------------------- what follows from that

  /** A tree without imports expands to itself, wherever it stands. */
  lemma {:induction false} ExpandsToItself(w: World, q: Param, url: string)
    requires NoImports(q)
    ensures Expands(w, q, url, q) && BodyExpands(w, q, url, q)
    decreases q
  {
    TableExpandsToItself(w, q.params, url);
    TableExpandsToItself(w, q.commands, url);
  }

  lemma {:induction false} TableExpandsToItself(w: World, q: Table, url: string)
    requires NoneIn(q)
    ensures TableExpands(w, q, url, q)
    decreases q
  {
    if q.Table? {
      forall k | 0 <= k < |q.entries| ensures Expands(w, q.entries[k].param, url, q.entries[k].param) {
        ExpandsToItself(w, q.entries[k].param, url);
      }
    }
  }

  /** With clean files no import is left. */
  lemma {:induction false} NoneLeft(w: World, p: Param, url: string, q: Param)
    requires Clean(w) && Expands(w, p, url, q)
    ensures NoImports(q)
    decreases q
  {
    match p.imports
    case None => NoneLeftInBody(w, p, url, q);
    case Some(relative) =>
      var target := w.resolve(relative, url).value;
      NoneLeftInBody(w, w.validate("param", target).value, target, q);
  }

  lemma NoneLeftInBody(w: World, p: Param, url: string, q: Param)
    requires Clean(w) && BodyExpands(w, p, url, q)
    ensures NoneIn(q.params) && NoneIn(q.commands)
    decreases q, 0
  {
    NoneLeftInTable(w, p.params, url, q.params);
    NoneLeftInTable(w, p.commands, url, q.commands);
  }

  lemma NoneLeftInTable(w: World, p: Table, url: string, q: Table)
    requires Clean(w) && TableExpands(w, p, url, q)
    ensures NoneIn(q)
    decreases q
  {
    if q.Table? {
      forall k | 0 <= k < |q.entries| ensures NoImports(q.entries[k].param) {
        NoneLeft(w, p.entries[k].param, url, q.entries[k].param);
      }
    }
  }

  lemma {:induction false} OnlyItself(w: World, p: Param, url: string, q: Param)
    requires NoneIn(p.params) && NoneIn(p.commands) && BodyExpands(w, p, url, q)
    ensures p == q
    decreases q, 0
  {
    TableOnlyItself(w, p.params, url, q.params);
    TableOnlyItself(w, p.commands, url, q.commands);
  }

  lemma TableOnlyItself(w: World, p: Table, url: string, q: Table)
    requires NoneIn(p) && TableExpands(w, p, url, q)
    ensures p == q
    decreases q
  {
    if q.Table? {
      forall k | 0 <= k < |q.entries| ensures p.entries[k] == q.entries[k] {
        OnlyItself(w, p.entries[k].param, url, q.entries[k].param);
      }
    }
  }

  // -------------------------------------------------------------------- cycles

  /** Somewhere below `p` in the file `url` the file `to` is imported. */
  ghost predicate Mentions(w: World, p: Param, url: string, to: string)
    decreases p, 0
  {
    MentionedIn(w, p.params, url, to) || MentionedIn(w, p.commands, url, to)
  }

  ghost predicate MentionedIn(w: World, p: Table, url: string, to: string)
    decreases p
  {
    p.Table? && exists k :: 0 <= k < |p.entries| && MentionedAt(w, p.entries[k].param, url, to)
  }

  ghost predicate MentionedAt(w: World, p: Param, url: string, to: string)
    decreases p, 1
  {
    match p.imports
    case None => Mentions(w, p, url, to)
    case Some(relative) => w.resolve(relative, url) == Some(to)
  }

  /** Each of the files imports the next, and the last the first. */
  ghost predicate Cycle(w: World, urls: seq<string>) {
    urls != [] && forall i: nat | i < |urls| :: ImportsNext(w, urls, i)
  }

  ghost predicate ImportsNext(w: World, urls: seq<string>, i: nat)
    requires i < |urls|
  {
    var data := w.validate("param", urls[i]);
    data.Some? && Mentions(w, data.value, urls[i], urls[(i + 1) % |urls|])
  }

  /** Whatever leads into a cycle of imports has no expansion, of any depth. */
  lemma {:induction false} NoCyclicExpansion(w: World, urls: seq<string>, i: nat, p: Param, url: string, q: Param)
    requires Cycle(w, urls) && i < |urls| && Mentions(w, p, url, urls[i])
    ensures !BodyExpands(w, p, url, q)
    decreases q
  {
    if BodyExpands(w, p, url, q) {
      var r := MentionedExpands(w, p, url, urls[i], q);
      assert ImportsNext(w, urls, i);
      NoCyclicExpansion(w, urls, (i + 1) % |urls|, w.validate("param", urls[i]).value, urls[i], r);
    }
  }

  /** The expansion of what is imported is a part of the whole expansion. */
  lemma {:induction false} MentionedExpands(w: World, p: Param, url: string, to: string, q: Param) returns (r: Param)
    requires BodyExpands(w, p, url, q) && Mentions(w, p, url, to)
    ensures w.validate("param", to).Some? && BodyExpands(w, w.validate("param", to).value, to, r)
    ensures q decreases to r
    decreases q
  {
    var pt, qt := p.params, q.params;
    if !MentionedIn(w, p.params, url, to) { pt, qt := p.commands, q.commands; }
    assert TableExpands(w, pt, url, qt);
    var k :| 0 <= k < |pt.entries| && MentionedAt(w, pt.entries[k].param, url, to);
    r := qt.entries[k].param;
    assert Expands(w, pt.entries[k].param, url, r);
    if pt.entries[k].param.imports.None? { r := MentionedExpands(w, pt.entries[k].param, url, to, r); }
  }

  // ------------------------------------------------------------------ the loader

  /** What a file becomes that is loaded at this depth. */
  ghost predicate IsFile(w: World, data: Param, url: string, depth: nat, q: Param) {
    IsBody(w, data, url, depth + 1, q)
  }

  /** What a param or command becomes that stands in a table at this depth. */
  ghost predicate IsParam(w: World, p: Param, url: string, depth: nat, q: Param)
    decreases 102 - depth, 0
  {
    depth <= MAX_RESOLVE_DEPTH && Becomes(w, p, url, depth + 1, q)
  }

  /** What a param becomes whose own tables are at this depth. What it imports is expanded
      where it stands, and then once more where it is imported. */
  ghost predicate Becomes(w: World, p: Param, url: string, depth: nat, q: Param)
    decreases 102 - depth, 3
  {
    match p.imports
    case None => IsBody(w, p, url, depth, q)
    case Some(relative) =>
      match w.resolve(relative, url)
      case None => false
      case Some(target) =>
        && w.isParamFile(target)
        && w.validate("param", target).Some?
        && exists file ::
             IsBody(w, w.validate("param", target).value, target, depth, file) && IsBody(w, file, url, depth, q)
  }

  /** What the tables of a param or file become; an empty table counts for the depth. */
  ghost predicate IsBody(w: World, p: Param, url: string, depth: nat, q: Param)
    decreases 102 - depth, 2
  {
    && q.rest == p.rest && q.imports == p.imports
    && IsTable(w, p.params, url, depth, q.params)
    && IsTable(w, p.commands, url, depth, q.commands)
  }

  ghost predicate IsTable(w: World, p: Table, url: string, depth: nat, q: Table)
    decreases 102 - depth, 1
  {
    match p
    case Absent => q.Absent?
    case Table(ps) =>
      && depth <= MAX_RESOLVE_DEPTH && q.Table? && |q.entries| == |ps|
      && forall k :: 0 <= k < |ps| ==>
           ps[k].name == q.entries[k].name && IsParam(w, ps[k].param, url, depth, q.entries[k].param)
  }

  /** With clean files that is the expansion, as far as the depth bound allows it. */
  lemma {:induction false} CleanBody(w: World, p: Param, url: string, depth: nat, q: Param)
    requires Clean(w)
    ensures IsBody(w, p, url, depth, q) <==> BodyExpands(w, p, url, q) && BodyFits(q, depth)
    decreases 102 - depth, 2
  {
    CleanTable(w, p.params, url, depth, q.params);
    CleanTable(w, p.commands, url, depth, q.commands);
  }

  lemma CleanTable(w: World, p: Table, url: string, depth: nat, q: Table)
    requires Clean(w)
    ensures IsTable(w, p, url, depth, q) <==> TableExpands(w, p, url, q) && Fits(q, depth)
    decreases 102 - depth, 1
  {
    if p.Table? && q.Table? && |p.entries| == |q.entries| && depth <= MAX_RESOLVE_DEPTH {
      forall k | 0 <= k < |p.entries|
        ensures IsParam(w, p.entries[k].param, url, depth, q.entries[k].param) <==>
                  Expands(w, p.entries[k].param, url, q.entries[k].param) && BodyFits(q.entries[k].param, depth + 1)
      {
        CleanParam(w, p.entries[k].param, url, depth + 1, q.entries[k].param);
      }
    }
  }

  lemma CleanParam(w: World, p: Param, url: string, depth: nat, q: Param)
    requires Clean(w)
    ensures Becomes(w, p, url, depth, q) <==> Expands(w, p, url, q) && BodyFits(q, depth)
    decreases 102 - depth, 3
  {
    if p.imports.None? {
      CleanBody(w, p, url, depth, q);
    } else {
      if Becomes(w, p, url, depth, q) {
        var target, data, file := ImportOf(w, p, url, depth, q);
        CleanBody(w, data, target, depth, file);
        CleanBody(w, file, url, depth, q);
        NoneLeftInBody(w, data, target, file);
        OnlyItself(w, file, url, q);
      }
      if Expands(w, p, url, q) && BodyFits(q, depth) {
        var target := w.resolve(p.imports.value, url).value;
        var data := w.validate("param", target).value;
        CleanBody(w, data, target, depth, q);
        NoneLeftInBody(w, data, target, q);
        BodyExpandsToItself(w, q, url);
        CleanBody(w, q, url, depth, q);
        BecomesImported(w, p, url, depth, target, data, q, q);
      }
    }
  }

  /** What an import stands for: a file, and what it has become before it is expanded again. */
  lemma ImportOf(w: World, p: Param, url: string, depth: nat, q: Param)
    returns (target: string, data: Param, file: Param)
    requires p.imports.Some? && Becomes(w, p, url, depth, q)
    ensures w.resolve(p.imports.value, url) == Some(target) && w.isParamFile(target)
    ensures w.validate("param", target) == Some(data)
    ensures IsBody(w, data, target, depth, file) && IsBody(w, file, url, depth, q)
  {
    hide IsTable;
    assert Becomes(w, p, url, depth, q);
    target := w.resolve(p.imports.value, url).value;
    data := w.validate("param", target).value;
    file :| IsBody(w, data, target, depth, file) && IsBody(w, file, url, depth, q);
  }

  lemma BecomesImported(w: World, p: Param, url: string, depth: nat, target: string, data: Param, file: Param, q: Param)
    requires p.imports.Some? && w.resolve(p.imports.value, url) == Some(target) && w.isParamFile(target)
    requires w.validate("param", target) == Some(data)
    requires IsBody(w, data, target, depth, file) && IsBody(w, file, url, depth, q)
    ensures Becomes(w, p, url, depth, q)
  {
    hide IsTable;
  }

  lemma BodyExpandsToItself(w: World, q: Param, url: string)
    requires NoneIn(q.params) && NoneIn(q.commands)
    ensures BodyExpands(w, q, url, q)
  {
    TableExpandsToItself(w, q.params, url);
    TableExpandsToItself(w, q.commands, url);
  }

  /** The import an entry is left with: that of the file it imports. */
  ghost function LeftOver(w: World, p: Param, url: string): Option<string> {
    if p.imports.None? || w.resolve(p.imports.value, url).None? then None
    else
      var file := w.validate("param", w.resolve(p.imports.value, url).value);
      if file.None? then None else file.value.imports
  }

  /** An import is left where, and only where, the imported file consists of one. */
  lemma LeftOverStays(w: World, p: Param, url: string, depth: nat, q: Param)
    requires Becomes(w, p, url, depth, q)
    ensures q.imports == LeftOver(w, p, url)
  {
  }

  // ------------------------------------------------------------------ the bound

  /** How many tables lie inside one another. */
  function Levels(p: Param): nat
    decreases p, 0
  {
    if TableLevels(p.params) < TableLevels(p.commands) then TableLevels(p.commands) else TableLevels(p.params)
  }

  function TableLevels(t: Table): nat
    decreases t
  {
    if t.Absent? then 0 else 1 + EntryLevels(t.entries)
  }

  function EntryLevels(entries: seq<Entry>): nat
    decreases entries
  {
    if entries == [] then 0
    else
      var before, last := EntryLevels(entries[1..]), Levels(entries[0].param);
      if before < last then last else before
  }

  lemma {:induction false} EntryLevelsIff(entries: seq<Entry>, n: nat)
    ensures EntryLevels(entries) <= n <==> forall k :: 0 <= k < |entries| ==> Levels(entries[k].param) <= n
  {
    hide Levels;
    if entries != [] {
      EntryLevelsIff(entries[1..], n);
      assert forall k :: 0 < k < |entries| ==> entries[k] == entries[1..][k - 1];
    }
  }

  /** Without imports a param becomes itself, unless its tables go too deep. */
  lemma {:induction false} BodyItselfIff(w: World, p: Param, url: string, depth: nat, q: Param)
    requires NoneIn(p.params) && NoneIn(p.commands) && 0 < depth <= MAX_RESOLVE_DEPTH + 1
    ensures IsBody(w, p, url, depth, q) <==> q == p && depth + Levels(p) <= 101
    decreases p, 0
  {
    TableItselfIff(w, p.params, url, depth, q.params);
    TableItselfIff(w, p.commands, url, depth, q.commands);
    hide IsTable;
  }

  lemma TableItselfIff(w: World, t: Table, url: string, depth: nat, q: Table)
    requires NoneIn(t) && 0 < depth <= MAX_RESOLVE_DEPTH + 1
    ensures IsTable(w, t, url, depth, q) <==> q == t && (t.Table? ==> depth + TableLevels(t) <= 101)
    decreases t
  {
    if t.Table? {
      if depth <= MAX_RESOLVE_DEPTH {
        EntryLevelsIff(t.entries, 100 - depth);
        forall k, r | 0 <= k < |t.entries|
          ensures IsParam(w, t.entries[k].param, url, depth, r)
             <==> r == t.entries[k].param && depth + 1 + Levels(t.entries[k].param) <= 101
        {
          BodyItselfIff(w, t.entries[k].param, url, depth + 1, r);
        }
      }
      hide IsParam;
      if q.Table? && |q.entries| == |t.entries| { SameEntries(t.entries, q.entries); }
    }
  }

  lemma SameEntries(a: seq<Entry>, b: seq<Entry>)
    requires |a| == |b|
    ensures a == b <==> forall k :: 0 <= k < |a| ==> a[k].name == b[k].name && a[k].param == b[k].param
  {
    if forall k :: 0 <= k < |a| ==> a[k].name == b[k].name && a[k].param == b[k].param {
      assert forall k :: 0 <= k < |a| ==> a[k] == b[k];
    }
  }

  /** A file without imports loads exactly if its tables go no more than a hundred levels deep,
      and then unchanged. */
  lemma ImportFreeLoadsIff(w: World, data: Param, url: string, q: Param)
    requires NoneIn(data.params) && NoneIn(data.commands)
    ensures IsFile(w, data, url, 0, q) <==> q == data && Levels(data) <= 100
  {
    BodyItselfIff(w, data, url, 1, q);
  }

  /** Where an entry of an imported file imports a file that consists of an import, the second
      walk follows that import, from the file at which it has arrived. */
  lemma SecondWalk(w: World, p: Param, url: string, depth: nat, q: Param, target: string, k: nat)
    requires p.imports.Some? && Becomes(w, p, url, depth, q)
    requires w.resolve(p.imports.value, url) == Some(target) && w.validate("param", target).Some?
    requires var table := w.validate("param", target).value.params; table.Table? && k < |table.entries|
    requires LeftOver(w, w.validate("param", target).value.params.entries[k].param, target).Some?
    ensures var left := LeftOver(w, w.validate("param", target).value.params.entries[k].param, target).value;
            && q.params.Table? && k < |q.params.entries|
            && w.resolve(left, url).Some? && w.validate("param", w.resolve(left, url).value).Some?
            && q.params.entries[k].param.rest == w.validate("param", w.resolve(left, url).value).value.rest
  {
    var _, data, file := ImportOf(w, p, url, depth, q);
    assert IsTable(w, data.params, target, depth, file.params) && IsTable(w, file.params, url, depth, q.params);
    var e, f, g := data.params.entries[k].param, file.params.entries[k].param, q.params.entries[k].param;
    assert IsParam(w, e, target, depth, f) && IsParam(w, f, url, depth, g);
    LeftOverStays(w, e, target, depth + 1, f);
    var _, data', file' := ImportOf(w, f, url, depth + 1, g);
  }

  /** Whatever leads into a cycle of imports becomes nothing, clean or not. */
  lemma {:induction false} CycleNeverLoads(w: World, urls: seq<string>, i: nat, p: Param, url: string, depth: nat,
                                           q: Param)
    requires Cycle(w, urls) && i < |urls| && Mentions(w, p, url, urls[i])
    ensures !IsBody(w, p, url, depth, q)
    decreases 102 - depth
  {
    if IsBody(w, p, url, depth, q) {
      var deeper, file := MentionedLoads(w, p, url, urls[i], depth, q);
      assert ImportsNext(w, urls, i);
      CycleNeverLoads(w, urls, (i + 1) % |urls|, w.validate("param", urls[i]).value, urls[i], deeper, file);
    }
  }

  lemma {:induction false} MentionedLoads(w: World, p: Param, url: string, to: string, depth: nat, q: Param)
    returns (deeper: nat, file: Param)
    requires IsBody(w, p, url, depth, q) && Mentions(w, p, url, to)
    ensures depth <= MAX_RESOLVE_DEPTH && depth < deeper
    ensures w.validate("param", to).Some? && IsBody(w, w.validate("param", to).value, to, deeper, file)
    decreases p
  {
    var pt, qt := p.params, q.params;
    if !MentionedIn(w, p.params, url, to) { pt, qt := p.commands, q.commands; }
    assert IsTable(w, pt, url, depth, qt);
    var k :| 0 <= k < |pt.entries| && MentionedAt(w, pt.entries[k].param, url, to);
    var param := pt.entries[k].param;
    deeper := depth + 1;
    assert IsParam(w, param, url, depth, qt.entries[k].param);
    assert Becomes(w, param, url, deeper, qt.entries[k].param);
    if param.imports.None? {
      deeper, file := MentionedLoads(w, param, url, to, deeper, qt.entries[k].param);
    } else {
      var _, _, imported := ImportOf(w, param, url, deeper, qt.entries[k].param);
      file := imported;
    }
  }

  /** `_load`: a file and, if asked for, everything it imports; it terminates on every set
      of files. It returns exactly what the file becomes, and throws when there is no such
      thing. */
  method Load(w: World, schema: string, url: string, resolveImports: bool, depth: nat) returns (r: Result<Param>)
    requires depth <= MAX_RESOLVE_DEPTH
    ensures w.validate(schema, url).None? ==> r == Throws(InvalidResource)
    ensures !resolveImports && w.validate(schema, url).Some? ==> r == Done(w.validate(schema, url).value)
    ensures resolveImports && w.validate(schema, url).Some? ==>
              var data := w.validate(schema, url).value;
              && (r.Done? ==> IsFile(w, data, url, depth, r.value))
              && forall q :: IsFile(w, data, url, depth, q) ==> r == Done(q)
    decreases 102 - depth, 0
  {
    hide IsBody;
    var file := w.validate(schema, url);
    if file.None? { return Throws(InvalidResource); }
    if resolveImports {
      r := WalkTables(w, file.value, depth + 1, url);
    } else {
      r := Done(file.value);
    }
  }

  /** The sub-params and then the sub-commands of one param or file. */
  method WalkTables(w: World, p: Param, depth: nat, url: string) returns (r: Result<Param>)
    requires depth <= MAX_RESOLVE_DEPTH + 1
    ensures r.Done? ==> IsBody(w, p, url, depth, r.value)
    ensures forall q :: IsBody(w, p, url, depth, q) ==> r == Done(q)
    decreases 102 - depth, 3
  {
    AbsentIs(w, url, depth);
    hide IsTable;
    forall q | IsBody(w, p, url, depth, q)
      ensures IsTable(w, p.params, url, depth, q.params) && IsTable(w, p.commands, url, depth, q.commands) {}
    var data := p;
    if data.params.Table? {
      var walked := Walk(w, data.params, depth, url);
      if walked.Throws? { return Throws(walked.error); }
      data := data.(params := walked.value);
    }
    if data.commands.Table? {
      var walked := Walk(w, data.commands, depth, url);
      if walked.Throws? { return Throws(walked.error); }
      data := data.(commands := walked.value);
    }
    return Done(data);
  }

  lemma AbsentIs(w: World, url: string, depth: nat)
    ensures forall q :: IsTable(w, Absent, url, depth, q) <==> q == Absent
  {
  }

  /** `_walk`: each entry in turn is replaced by what it becomes. */
  method Walk(w: World, params: Table, depth: nat, url: string) returns (r: Result<Table>)
    requires params.Table? && depth <= MAX_RESOLVE_DEPTH + 1
    ensures r.Done? ==> IsTable(w, params, url, depth, r.value)
    ensures forall q :: IsTable(w, params, url, depth, q) ==> r == Done(q)
    decreases 102 - depth, 2
  {
    if depth > MAX_RESOLVE_DEPTH { return Throws(TooDeep); }
    hide IsParam;
    var entries := params.entries;
    for i := 0 to |params.entries|
      invariant |entries| == |params.entries|
      invariant forall k :: i <= k < |entries| ==> entries[k] == params.entries[k]
      invariant forall k :: 0 <= k < i ==> entries[k].name == params.entries[k].name
      invariant forall k :: 0 <= k < i ==> IsParam(w, params.entries[k].param, url, depth, entries[k].param)
      invariant forall k, q ::
                  0 <= k < i && IsParam(w, params.entries[k].param, url, depth, q) ==> q == entries[k].param
    {
      var walked := WalkEntry(w, entries[i].param, depth, url);
      if walked.Throws? { return Throws(walked.error); }
      entries := entries[i := Entry(entries[i].name, walked.value)];
    }
    OneTable(w, params, url, depth, entries);
    return Done(Table(entries));
  }

  lemma OneTable(w: World, params: Table, url: string, depth: nat, entries: seq<Entry>)
    requires params.Table? && depth <= MAX_RESOLVE_DEPTH && |entries| == |params.entries|
    requires forall k :: 0 <= k < |entries| ==> entries[k].name == params.entries[k].name
    requires forall k :: 0 <= k < |entries| ==> IsParam(w, params.entries[k].param, url, depth, entries[k].param)
    requires forall k, q ::
               0 <= k < |entries| && IsParam(w, params.entries[k].param, url, depth, q) ==> q == entries[k].param
    ensures IsTable(w, params, url, depth, Table(entries))
    ensures forall q :: IsTable(w, params, url, depth, q) ==> q == Table(entries)
  {
    hide IsParam;
    forall q | IsTable(w, params, url, depth, q) ensures q == Table(entries) {
      forall k | 0 <= k < |entries| ensures q.entries[k] == entries[k] {
        assert IsParam(w, params.entries[k].param, url, depth, q.entries[k].param);
      }
    }
  }

  /** One entry. What was loaded is walked once more, against the url of the file that
      imports it. */
  method WalkEntry(w: World, p: Param, depth: nat, url: string) returns (r: Result<Param>)
    requires depth <= MAX_RESOLVE_DEPTH
    ensures r.Done? ==> IsParam(w, p, url, depth, r.value)
    ensures forall q :: IsParam(w, p, url, depth, q) ==> r == Done(q)
    decreases 102 - depth, 1
  {
    hide IsBody;
    forall q ensures IsParam(w, p, url, depth, q) <==> Becomes(w, p, url, depth + 1, q) {}
    var param := p;
    if param.imports.Some? {
      var target := w.resolve(param.imports.value, url);
      forall q | IsParam(w, p, url, depth, q)
        ensures target.Some? && w.isParamFile(target.value) && w.validate("param", target.value).Some?
      {
        var target, data, file := ImportOf(w, p, url, depth + 1, q);
      }
      if target.None? { return Throws(InvalidUrl); }
      if !w.isParamFile(target.value) { return Throws(NotAParamFile); }
      var loaded := Load(w, "param", target.value, true, depth);
      forall q | IsParam(w, p, url, depth, q) ensures loaded.Done? && IsBody(w, loaded.value, url, depth + 1, q) {
        var target, data, file := ImportOf(w, p, url, depth + 1, q);
        assert IsFile(w, data, target, depth, file);
      }
      if loaded.Throws? { return Throws(loaded.error); }
      param := loaded.value;
      r := WalkTables(w, param, depth + 1, url);
      if r.Done? {
        BecomesImported(w, p, url, depth + 1, target.value, w.validate("param", target.value).value, param, r.value);
      }
    } else {
      forall q | IsParam(w, p, url, depth, q) ensures IsBody(w, p, url, depth + 1, q) {}
      r := WalkTables(w, param, depth + 1, url);
    }
  }
}
