/** What a request is answered with, said by the paths of names that lead to a descriptor: a
    recursive one with a line for each of them, in order, a plain one with the first level. */
module Requests {
  import opened Types
  import opened ParamInfo

  /** What stands below a descriptor. */
  function Under(d: Json): map<string, Json> {
    if d.Object? && "params" in d.entries && d.entries["params"].Object? then d.entries["params"].entries else map[]
  }

  /** The names lead from one level to the next and end at a descriptor. */
  predicate Leads(level: map<string, Json>, path: seq<string>)
    decreases |path|
  {
    && path != [] && path[0] in level && level[path[0]].Object?
    && (|path| == 1 || Leads(Under(level[path[0]]), path[1..]))
  }

  function DescriptorAt(level: map<string, Json>, path: seq<string>): Json
    requires Leads(level, path)
    decreases |path|
  {
    if |path| == 1 then level[path[0]] else DescriptorAt(Under(level[path[0]]), path[1..])
  }

  /** Names are compared one by one, and a path comes before all that it leads on to. */
  ghost predicate PathBefore(a: seq<string>, b: seq<string>)
    decreases |a|
  {
    b != [] && (a == [] || Before(a[0], b[0]) || (a[0] == b[0] && PathBefore(a[1..], b[1..])))
  }

  ghost predicate Ordered(paths: seq<seq<string>>) {
    forall i, j :: 0 <= i < j < |paths| ==> PathBefore(paths[i], paths[j])
  }

  /** The line of a path that leads to a descriptor. */
  ghost predicate LineOf(level: map<string, Json>, prefix: string, path: seq<string>, info: Info) {
    Leads(level, path) && info == Info(Joined(prefix, path), DescriptorAt(level, path))
  }

  ghost predicate LinesOf(level: map<string, Json>, prefix: string, paths: seq<seq<string>>, infos: seq<Info>) {
    |infos| == |paths| && forall k :: 0 <= k < |paths| ==> LineOf(level, prefix, paths[k], infos[k])
  }

  /** A line for each path that leads to a descriptor, in the order of the paths; only the
      paths of one name unless it is a deep listing. */
  ghost predicate Lists(level: map<string, Json>, prefix: string, deep: bool, paths: seq<seq<string>>,
                        infos: seq<Info>) {
    && LinesOf(level, prefix, paths, infos) && Ordered(paths)
    && forall p :: p in paths <==> Leads(level, p) && (deep || |p| == 1)
  }

  // ------------------------------------------------------------------ the order

  /** The order of names is that of the first character in which they differ. */
  lemma {:induction false} BeforeIff(a: string, b: string)
    ensures Before(a, b) <==>
              exists n: nat :: n <= |a| && n < |b| && a[..n] == b[..n] && (n == |a| || a[n] < b[n])
  {
    if Before(a, b) { var n := Differ(a, b); }
    if n: nat :| n <= |a| && n < |b| && a[..n] == b[..n] && (n == |a| || a[n] < b[n]) { DifferBefore(a, b, n); }
  }

  lemma {:induction false} Differ(a: string, b: string) returns (n: nat)
    requires Before(a, b)
    ensures n <= |a| && n < |b| && a[..n] == b[..n] && (n == |a| || a[n] < b[n])
  {
    if a == [] || a[0] < b[0] {
      n := 0;
    } else {
      var m := Differ(a[1..], b[1..]);
      n := m + 1;
      assert a[..n] == [a[0]] + a[1..][..m] && b[..n] == [b[0]] + b[1..][..m];
    }
  }

  lemma {:induction false} DifferBefore(a: string, b: string, n: nat)
    requires n <= |a| && n < |b| && a[..n] == b[..n] && (n == |a| || a[n] < b[n])
    ensures Before(a, b)
  {
    if n > 0 {
      assert a[0] == a[..n][0] == b[..n][0] == b[0];
      assert a[1..][..n - 1] == a[..n][1..] && b[1..][..n - 1] == b[..n][1..];
      DifferBefore(a[1..], b[1..], n - 1);
    }
  }

  // ---------------------------------------------------------------- the listing

  lemma UnderChildren(d: Json)
    ensures Under(d) == if Children(d).Some? then Children(d).value.entries else map[]
  {
  }

  /** The paths of one key: itself and, if the listing is deep, all that it leads on to. */
  lemma EntryPaths(params: Json, key: string, prefix: string, deep: bool) returns (paths: seq<seq<string>>)
    requires params.Object?
    ensures LinesOf(params.entries, prefix, paths, Entry(params, key, prefix, deep)) && Ordered(paths)
    ensures forall p :: p in paths <==> p != [] && p[0] == key && Leads(params.entries, p) && (deep || |p| == 1)
    decreases params, 0
  {
    paths := [];
    if key in params.entries && params.entries[key].Object? {
      var d, oid := params.entries[key], OidOf(prefix, key);
      UnderChildren(d);
      var rest: seq<seq<string>> := [];
      if deep && Children(d).Some? {
        rest := FlatPaths(Children(d).value, oid, true);
      }
      paths := [[key]] + Behind(key, rest);
      assert deep ==> Lists(Under(d), oid, true, rest, Below(d, oid, deep));
      KeyPaths(params.entries, key, prefix, deep, rest, Below(d, oid, deep));
    }
  }

  function Behind(key: string, paths: seq<seq<string>>): seq<seq<string>> {
    seq(|paths|, k requires 0 <= k < |paths| => [key] + paths[k])
  }

  lemma KeyPaths(level: map<string, Json>, key: string, prefix: string, deep: bool, rest: seq<seq<string>>,
                 infos: seq<Info>)
    requires key in level && level[key].Object?
    requires LinesOf(Under(level[key]), OidOf(prefix, key), rest, infos) && Ordered(rest)
    requires if deep then forall q :: q in rest <==> Leads(Under(level[key]), q) else rest == []
    ensures var paths := [[key]] + Behind(key, rest);
            && LinesOf(level, prefix, paths, [Info(OidOf(prefix, key), level[key])] + infos) && Ordered(paths)
            && forall p :: p in paths <==> p != [] && p[0] == key && Leads(level, p) && (deep || |p| == 1)
  {
    KeyLines(level, key, prefix, rest, infos);
    forall k | 0 <= k < |rest| ensures rest[k] != [] { assert rest[k] in rest; }
    KeyOrdered(key, rest);
    hide Under, OidOf, Leads, Behind;
    forall p ensures p in [[key]] + Behind(key, rest) <==>
                       p != [] && p[0] == key && Leads(level, p) && (deep || |p| == 1)
    {
      KeyPath(level, key, deep, rest, p);
    }
  }

  lemma KeyLines(level: map<string, Json>, key: string, prefix: string, rest: seq<seq<string>>, infos: seq<Info>)
    requires key in level && level[key].Object? && LinesOf(Under(level[key]), OidOf(prefix, key), rest, infos)
    ensures LinesOf(level, prefix, [[key]] + Behind(key, rest), [Info(OidOf(prefix, key), level[key])] + infos)
  {
    var paths := [[key]] + Behind(key, rest);
    var all := [Info(OidOf(prefix, key), level[key])] + infos;
    OneName(level, key, prefix);
    hide Under, OidOf, LineOf;
    forall k | 0 <= k < |paths| ensures LineOf(level, prefix, paths[k], all[k]) {
      if k > 0 {
        assert LineOf(Under(level[key]), OidOf(prefix, key), rest[k - 1], infos[k - 1]);
        OneFurther(level, key, prefix, rest[k - 1], infos[k - 1]);
        assert paths[k] == [key] + rest[k - 1] && all[k] == infos[k - 1];
      }
    }
  }

  lemma OneName(level: map<string, Json>, key: string, prefix: string)
    requires key in level && level[key].Object?
    ensures LineOf(level, prefix, [key], Info(OidOf(prefix, key), level[key]))
  {
    assert [key][1..] == [];
    assert Joined(OidOf(prefix, key), []) == OidOf(prefix, key);
  }

  lemma OneFurther(level: map<string, Json>, key: string, prefix: string, path: seq<string>, info: Info)
    requires key in level && level[key].Object? && LineOf(Under(level[key]), OidOf(prefix, key), path, info)
    ensures LineOf(level, prefix, [key] + path, info)
  {
    hide Under, OidOf;
    assert ([key] + path)[1..] == path;
  }

  lemma KeyOrdered(key: string, rest: seq<seq<string>>)
    requires Ordered(rest) && forall k :: 0 <= k < |rest| ==> rest[k] != []
    ensures Ordered([[key]] + Behind(key, rest))
  {
    var paths := [[key]] + Behind(key, rest);
    forall k | 0 <= k < |rest| ensures paths[k + 1][1..] == rest[k] && paths[k + 1][0] == key {
      assert paths[k + 1] == [key] + rest[k];
    }
    assert [key][1..] == [];
  }

  lemma KeyPath(level: map<string, Json>, key: string, deep: bool, rest: seq<seq<string>>, p: seq<string>)
    requires key in level && level[key].Object?
    requires if deep then forall q :: q in rest <==> Leads(Under(level[key]), q) else rest == []
    ensures p in [[key]] + Behind(key, rest) <==> p != [] && p[0] == key && Leads(level, p) && (deep || |p| == 1)
  {
    hide Under;
    var paths := [[key]] + Behind(key, rest);
    if p in paths {
      var m :| 0 <= m < |paths| && paths[m] == p;
      if m > 0 {
        assert rest[m - 1] in rest;
        assert p[1..] == rest[m - 1];
      }
    }
    if p != [] && p[0] == key && Leads(level, p) && (deep || |p| == 1) {
      assert p == [key] + p[1..];
      if |p| > 1 {
        assert p[1..] in rest;
        var k :| 0 <= k < |rest| && rest[k] == p[1..];
        assert paths[k + 1] == p;
      } else {
        assert paths[0] == p;
      }
    }
  }

  lemma ListingPaths(params: Json, keys: seq<string>, prefix: string, deep: bool) returns (paths: seq<seq<string>>)
    requires params.Object? && Ascending(keys)
    ensures LinesOf(params.entries, prefix, paths, Listing(params, keys, prefix, deep)) && Ordered(paths)
    ensures forall p :: p in paths <==> p != [] && p[0] in keys && Leads(params.entries, p) && (deep || |p| == 1)
    decreases params, 1, |keys|
  {
    paths := [];
    if keys == [] {
      assert Listing(params, keys, prefix, deep) == [];
    } else {
      hide Leads, LineOf, LinesOf, Ordered, Entry, Listing, PathBefore, Before;
      var before, key := keys[..|keys| - 1], keys[|keys| - 1];
      assert keys == before + [key];
      var first := ListingPaths(params, before, prefix, deep);
      var last := EntryPaths(params, key, prefix, deep);
      paths := first + last;
      LastKey(params, keys, prefix, deep);
      FirstNames(before, key, first, last);
      BothListed(params.entries, prefix, first, last, Listing(params, before, prefix, deep),
                 Entry(params, key, prefix, deep));
      forall p ensures p in paths <==> p != [] && p[0] in keys && Leads(params.entries, p) && (deep || |p| == 1) {
        assert p in paths <==> p in first || p in last;
      }
    }
  }

  lemma FirstNames(before: seq<string>, key: string, first: seq<seq<string>>, last: seq<seq<string>>)
    requires Ascending(before + [key])
    requires forall p :: p in first ==> p != [] && p[0] in before
    requires forall p :: p in last ==> p != [] && p[0] == key
    ensures forall i, j :: 0 <= i < |first| && 0 <= j < |last| ==> PathBefore(first[i], last[j])
  {
    var keys := before + [key];
    forall i, j | 0 <= i < |first| && 0 <= j < |last| ensures PathBefore(first[i], last[j]) {
      assert first[i] in first && last[j] in last;
      var k :| 0 <= k < |before| && before[k] == first[i][0];
      assert keys[k] == first[i][0] && keys[|before|] == key;
    }
  }

  lemma BothListed(level: map<string, Json>, prefix: string, first: seq<seq<string>>, last: seq<seq<string>>,
                   a: seq<Info>, b: seq<Info>)
    requires LinesOf(level, prefix, first, a) && LinesOf(level, prefix, last, b) && Ordered(first) && Ordered(last)
    requires forall i, j :: 0 <= i < |first| && 0 <= j < |last| ==> PathBefore(first[i], last[j])
    ensures LinesOf(level, prefix, first + last, a + b) && Ordered(first + last)
  {
    hide LineOf, PathBefore;
  }

  lemma LastKey(params: Json, keys: seq<string>, prefix: string, deep: bool)
    requires params.Object? && keys != []
    ensures Listing(params, keys, prefix, deep)
         == Listing(params, keys[..|keys| - 1], prefix, deep) + Entry(params, keys[|keys| - 1], prefix, deep)
  {
  }

  lemma FlatPaths(params: Json, prefix: string, deep: bool) returns (paths: seq<seq<string>>)
    requires params.Object?
    ensures Lists(params.entries, prefix, deep, paths, Flat(params, prefix, deep))
    decreases params, 2
  {
    var keys := Sorted(params.entries.Keys);
    paths := ListingPaths(params, keys, prefix, deep);
    forall p: seq<string> ensures Leads(params.entries, p) ==> p[0] in keys {
      assert Leads(params.entries, p) ==> p[0] in KeySet(keys);
    }
  }

  // ---------------------------------------------------------------- the requests

  /** A descriptor is found exactly where the names lead. */
  lemma {:induction false} FindLeads(params: Json, parts: seq<string>)
    requires params.Object? && parts != []
    ensures Find(params, parts).Some? <==> Leads(params.entries, parts)
    ensures Leads(params.entries, parts) ==> Find(params, parts) == Some(DescriptorAt(params.entries, parts))
    decreases |parts|
  {
    if parts[0] in params.entries && params.entries[parts[0]].Object? && |parts| > 1 {
      UnderChildren(params.entries[parts[0]]);
      var c := Children(params.entries[parts[0]]);
      if c.Some? { FindLeads(c.value, parts[1..]); }
    }
  }

  lemma FoundIff(params: Json, oid: string)
    requires params.Object?
    ensures FindOid(params, oid).Some? <==> oid != "" && Leads(params.entries, Parts(oid))
  {
    FindLeads(params, Parts(oid));
  }

  /** A request for the whole device is always answered, with the listing of the first level or
      of all of them. */
  lemma WholeAnswered(params: Json, recursive: bool) returns (paths: seq<seq<string>>)
    requires params.Object?
    ensures Requested(params, "", recursive).Found?
    ensures Lists(params.entries, "", recursive, paths, Requested(params, "", recursive).infos)
  {
    paths := FlatPaths(params, "", recursive);
  }

  /** A request for an oid finds its descriptor exactly if the names lead to one. A plain one is
      answered with its own line and nothing else, a recursive one with that line and then the
      deep listing below it. */
  lemma OidAnswered(params: Json, oid: string, recursive: bool) returns (paths: seq<seq<string>>)
    requires params.Object? && oid != ""
    ensures var r := Requested(params, oid, recursive);
            if !Leads(params.entries, Parts(oid)) then r == Outcome.NotFound
            else
              var d := DescriptorAt(params.entries, Parts(oid));
              && r.Found? && r.infos != [] && r.infos[0] == Info(oid, d)
              && if recursive then Lists(Under(d), oid, true, paths, r.infos[1..]) else |r.infos| == 1
  {
    paths := [];
    FindLeads(params, Parts(oid));
    if Leads(params.entries, Parts(oid)) {
      var d := DescriptorAt(params.entries, Parts(oid));
      UnderChildren(d);
      hide Leads, DescriptorAt;
      if recursive && Children(d).Some? {
        paths := FlatPaths(Children(d).value, oid, true);
      } else {
        NothingLeads();
      }
      assert ([Info(oid, d)] + Below(d, oid, recursive))[1..] == Below(d, oid, recursive);
    }
  }

  lemma NothingLeads()
    ensures forall p :: !Leads(map[], p)
  {
  }
}
