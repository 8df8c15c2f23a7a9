/** The parameter listings of the Go SDK: a device definition is nested maps, and a listing
    walks them in the order of their keys. */
module ParamInfo {
  import opened Types

  /** A `map[string]any`, or anything else. */
  datatype Json = Object(entries: map<string, Json>) | Scalar(text: string)

  /** One line of a listing. The name, type, template and length of the response are read
      off the descriptor. */
  datatype Info = Info(oid: string, descriptor: Json)

  // ---------------------------------------------------------------- sorted keys

  predicate Before(a: string, b: string) {
    b != [] && (a == [] || a[0] < b[0] || (a[0] == b[0] && Before(a[1..], b[1..])))
  }

  lemma BeforeTotal(a: string, b: string)
    ensures a == b || Before(a, b) || Before(b, a)
    ensures !(Before(a, b) && Before(b, a)) && !Before(a, a)
  {
    if a != [] && b != [] && a[0] == b[0] { BeforeTotal(a[1..], b[1..]); }
  }

  lemma BeforeTransitive(a: string, b: string, c: string)
    requires Before(a, b) && Before(b, c)
    ensures Before(a, c)
  {
    if a != [] && a[0] == b[0] == c[0] { BeforeTransitive(a[1..], b[1..], c[1..]); }
  }

  /** Strictly ascending, so without repetition. */
  ghost predicate Ascending(keys: seq<string>) {
    forall i, j :: 0 <= i < j < |keys| ==> Before(keys[i], keys[j])
  }

  ghost function KeySet(keys: seq<string>): set<string> { set k | k in keys }

  /** `sort.Strings` of the keys of a map, by insertion. */
  method SortedKeys(m: map<string, Json>) returns (keys: seq<string>)
    ensures Ascending(keys) && KeySet(keys) == m.Keys
  {
    keys := [];
    var left := m.Keys;
    while left != {}
      invariant left <= m.Keys && Ascending(keys) && KeySet(keys) == m.Keys - left
      decreases left
    {
      var key :| key in left;
      left := left - {key};
      var i := 0;
      while i < |keys| && Before(keys[i], key)
        invariant i <= |keys| && forall j :: 0 <= j < i ==> Before(keys[j], key)
      {
        i := i + 1;
      }
      Inserted(keys, key, i);
      keys := keys[..i] + [key] + keys[i..];
    }
  }

  lemma Inserted(keys: seq<string>, key: string, i: nat)
    requires Ascending(keys) && key !in keys && i <= |keys|
    requires forall j :: 0 <= j < i ==> Before(keys[j], key)
    requires i < |keys| ==> !Before(keys[i], key)
    ensures Ascending(keys[..i] + [key] + keys[i..])
    ensures KeySet(keys[..i] + [key] + keys[i..]) == KeySet(keys) + {key}
  {
    hide Before;
    var r := keys[..i] + [key] + keys[i..];
    forall j | i <= j < |keys| ensures Before(key, keys[j]) {
      BeforeTotal(keys[i], key);
      if i < j { BeforeTransitive(key, keys[i], keys[j]); }
    }
    forall j, k | 0 <= j < k < |r| ensures Before(r[j], r[k]) {
      assert j < i ==> r[j] == keys[j];
      assert j > i ==> r[j] == keys[j - 1];
      assert k < i ==> r[k] == keys[k];
      assert k > i ==> r[k] == keys[k - 1];
    }
    assert keys == keys[..i] + keys[i..];
    forall k ensures k in r <==> k in keys || k == key {
      assert k in keys <==> k in keys[..i] || k in keys[i..];
    }
  }

  /** There is only one ascending arrangement of a set. */
  lemma {:induction false} AscendingUnique(a: seq<string>, b: seq<string>)
    requires Ascending(a) && Ascending(b) && KeySet(a) == KeySet(b)
    ensures a == b
  {
    if a == [] {
      assert forall i :: 0 <= i < |b| ==> b[i] in KeySet(b);
      assert b == [];
    } else {
      assert a[0] in KeySet(a);
      assert b[0] in b by { assert a[0] in b; }
      assert b[0] in KeySet(b);
      assert a[0] == b[0] by { FirstIsLeast(a, b[0]); FirstIsLeast(b, a[0]); BeforeTotal(a[0], b[0]); }
      Rest(a);
      Rest(b);
      AscendingUnique(a[1..], b[1..]);
    }
  }

  lemma FirstIsLeast(a: seq<string>, k: string)
    requires Ascending(a) && k in a
    ensures a[0] == k || Before(a[0], k)
  {
  }

  lemma Rest(a: seq<string>)
    requires Ascending(a) && a != []
    ensures Ascending(a[1..]) && KeySet(a[1..]) == KeySet(a) - {a[0]}
  {
    forall k <- a[1..] ensures k != a[0] { BeforeTotal(k, k); }
    assert a == [a[0]] + a[1..];
  }

  lemma {:induction false} AscendingExists(s: set<string>) returns (keys: seq<string>)
    ensures Ascending(keys) && KeySet(keys) == s
    decreases s
  {
    if s == {} {
      keys := [];
    } else {
      var key :| key in s;
      var rest := AscendingExists(s - {key});
      var i := 0;
      while i < |rest| && Before(rest[i], key)
        invariant i <= |rest| && forall j :: 0 <= j < i ==> Before(rest[j], key)
      {
        i := i + 1;
      }
      assert key !in KeySet(rest);
      Inserted(rest, key, i);
      keys := rest[..i] + [key] + rest[i..];
    }
  }

  /** The keys of a map in order. */
  ghost function Sorted(s: set<string>): (keys: seq<string>)
    ensures Ascending(keys) && KeySet(keys) == s
  {
    assert exists keys :: Ascending(keys) && KeySet(keys) == s by { var keys := AscendingExists(s); }
    var keys :| Ascending(keys) && KeySet(keys) == s;
    keys
  }

  // --------------------------------------------------------------------- listing

  /** `childParamMap`: a nil map if there is none. */
  function Children(descriptor: Json): (c: Option<Json>)
    ensures c.Some? ==> c.value.Object? && (descriptor decreases to c.value)
  {
    if descriptor.Object? && "params" in descriptor.entries && descriptor.entries["params"].Object? then
      Some(descriptor.entries["params"])
    else None
  }

  function OidOf(prefix: string, key: string): string {
    if prefix != "" then prefix + "/" + key else key
  }

  /** The lines of one key: its own and, if asked for, those of its children. */
  ghost function Entry(params: Json, key: string, prefix: string, recursive: bool): seq<Info>
    requires params.Object?
    decreases params, 0
  {
    if key in params.entries && params.entries[key].Object? then
      var d := params.entries[key];
      [Info(OidOf(prefix, key), d)] + Below(d, OidOf(prefix, key), recursive)
    else []
  }

  ghost function Below(descriptor: Json, oid: string, recursive: bool): seq<Info>
    decreases descriptor, 0
  {
    var c := Children(descriptor);
    if recursive && c.Some? then Listing(c.value, Sorted(c.value.entries.Keys), oid, true) else []
  }

  ghost function Listing(params: Json, keys: seq<string>, prefix: string, recursive: bool): seq<Info>
    requires params.Object?
    decreases params, 1, |keys|
  {
    if keys == [] then []
    else
      Listing(params, keys[..|keys| - 1], prefix, recursive) + Entry(params, keys[|keys| - 1], prefix, recursive)
  }

  /** `flattenParamInfos`. */
  ghost function Flat(params: Json, prefix: string, recursive: bool): seq<Info>
    requires params.Object?
  {
    Listing(params, Sorted(params.entries.Keys), prefix, recursive)
  }

  lemma NextKey(params: Json, keys: seq<string>, i: nat, prefix: string, recursive: bool)
    requires params.Object? && i < |keys| && keys[i] in params.entries
    ensures var before, d, oid := Listing(params, keys[..i], prefix, recursive), params.entries[keys[i]],
                                  OidOf(prefix, keys[i]);
            Listing(params, keys[..i + 1], prefix, recursive)
            == if d.Object? then before + [Info(oid, d)] + Below(d, oid, recursive) else before
  {
    assert keys[..i + 1][..i] == keys[..i];
    var before, d := Listing(params, keys[..i], prefix, recursive), params.entries[keys[i]];
    var oid := OidOf(prefix, keys[i]);
    assert before + [Info(oid, d)] + Below(d, oid, recursive) == before + ([Info(oid, d)] + Below(d, oid, recursive));
  }

  lemma NextBelow(descriptor: Json, oid: string, recursive: bool)
    ensures Below(descriptor, oid, recursive)
         == if recursive && Children(descriptor).Some? then Flat(Children(descriptor).value, oid, true) else []
  {
  }

  method FlattenParamInfos(params: Json, prefix: string, recursive: bool) returns (infos: seq<Info>)
    requires params.Object?
    ensures infos == Flat(params, prefix, recursive)
    decreases params
  {
    var keys := SortedKeys(params.entries);
    AscendingUnique(keys, Sorted(params.entries.Keys));
    assert Flat(params, prefix, recursive) == Listing(params, keys, prefix, recursive);
    infos := [];
    assert infos == Listing(params, keys[..0], prefix, recursive);
    hide Ascending, Listing, Entry, Below, Flat;
    for i := 0 to |keys|
      invariant infos == Listing(params, keys[..i], prefix, recursive)
    {
      var key := keys[i];
      assert key in KeySet(keys);
      NextKey(params, keys, i, prefix, recursive);
      var descriptor := params.entries[key];
      if !descriptor.Object? { continue; }
      var oid := key;
      if prefix != "" { oid := prefix + "/" + key; }
      infos := infos + [Info(oid, descriptor)];
      ghost var line := infos;
      NextBelow(descriptor, oid, recursive);
      if recursive {
        var children := Children(descriptor);
        if children.Some? {
          var rest := FlattenParamInfos(children.value, oid, true);
          infos := infos + rest;
        }
      }
      assert infos == line + Below(descriptor, oid, recursive);
    }
    assert keys[..|keys|] == keys;
  }

  // ---------------------------------------------------------------------- lookup

  /** What `strings.Split` makes of a text at its slashes. */
  function Parts(s: string): (p: seq<string>)
    ensures p != [] && forall k <- p :: '/' !in k
  {
    if s == "" then [""]
    else
      var rest := Parts(s[1..]);
      if s[0] == '/' then [""] + rest else [[s[0]] + rest[0]] + rest[1..]
  }

  function Joined(prefix: string, parts: seq<string>): string
    decreases |parts|
  {
    if parts == [] then prefix else Joined(OidOf(prefix, parts[0]), parts[1..])
  }

  /** The descriptor the parts lead to; the last of them may not have children. */
  function Find(params: Json, parts: seq<string>): Option<Json>
    requires params.Object? && parts != []
    decreases |parts|
  {
    if parts[0] !in params.entries || !params.entries[parts[0]].Object? then None
    else if |parts| == 1 then Some(params.entries[parts[0]])
    else
      var c := Children(params.entries[parts[0]]);
      if c.Some? then Find(c.value, parts[1..]) else None
  }

  function FindOid(params: Json, oid: string): Option<Json>
    requires params.Object?
  {
    if oid == "" then None else Find(params, Parts(oid))
  }

  method FindParamDescriptor(params: Json, oid: string) returns (found: Option<Json>)
    requires params.Object?
    ensures found == FindOid(params, oid)
  {
    if oid == "" { return None; }
    var parts := Parts(oid);
    var level := params;
    found := None;
    var i := 0;
    while i < |parts|
      invariant 0 <= i <= |parts| && level.Object?
      invariant i < |parts| ==> Find(params, parts) == Find(level, parts[i..])
      invariant i == |parts| ==> Find(params, parts) == found
    {
      if parts[i] !in level.entries { return None; }
      var next := level.entries[parts[i]];
      if !next.Object? { return None; }
      found := Some(next);
      var children := Children(next);
      level := if children.Some? then children.value else Object(map[]);
      assert parts[i..][1..] == parts[i + 1..];
      i := i + 1;
    }
  }

  datatype Outcome = Found(infos: seq<Info>) | NotFound | Invalid

  ghost function Requested(params: Json, oid: string, recursive: bool): Outcome
    requires params.Object?
  {
    if oid == "" then Found(Flat(params, "", recursive))
    else
      match FindOid(params, oid)
      case None => Outcome.NotFound
      case Some(d) => Found([Info(oid, d)] + Below(d, oid, recursive))
  }

  method ParamInfosForRequest(fqoid: string, device: Json, recursive: bool) returns (r: Outcome)
    requires device.Object?
    ensures r == match Children(device)
                 case None => Invalid
                 case Some(params) =>
                   Requested(params, if |fqoid| > 0 && fqoid[0] == '/' then fqoid[1..] else fqoid, recursive)
  {
    var params := Children(device);
    if params.None? { return Invalid; }
    var oid := if |fqoid| > 0 && fqoid[0] == '/' then fqoid[1..] else fqoid;
    if oid == "" {
      var infos := FlattenParamInfos(params.value, "", recursive);
      return Found(infos);
    }
    var found := FindParamDescriptor(params.value, oid);
    if found.None? { return Outcome.NotFound; }
    var infos := [Info(oid, found.value)];
    if recursive {
      var children := Children(found.value);
      if children.Some? {
        var rest := FlattenParamInfos(children.value, oid, true);
        infos := infos + rest;
      }
    }
    return Found(infos);
  }

  // ----------------------------------------------- a subtree is part of the whole

  /** No name that is listed holds a slash. */
  ghost predicate Clean(params: Json)
    requires params.Object?
    decreases params
  {
    forall k | k in params.entries && params.entries[k].Object? ::
      && '/' !in k
      && var c := Children(params.entries[k]);
         c.Some? ==> Clean(c.value)
  }

  /** A descriptor below which nothing is listed. */
  ghost predicate Childless(descriptor: Json) {
    var c := Children(descriptor);
    c.Some? ==> forall k <- c.value.entries :: !c.value.entries[k].Object?
  }

  /** An empty name at the top, if there is one, has nothing below it. Further down an empty
      name is like any other. */
  ghost predicate Rooted(params: Json, prefix: string)
    requires params.Object?
  {
    prefix == "" && "" in params.entries && params.entries[""].Object? ==> Childless(params.entries[""])
  }

  lemma EmptyBelow(descriptor: Json, oid: string)
    requires Childless(descriptor)
    ensures Below(descriptor, oid, true) == []
  {
    var c := Children(descriptor);
    if c.Some? { EmptyListing(c.value, Sorted(c.value.entries.Keys), oid); }
  }

  lemma EmptyListing(params: Json, keys: seq<string>, prefix: string)
    requires params.Object? && forall k <- params.entries :: !params.entries[k].Object?
    ensures Listing(params, keys, prefix, true) == []
    decreases |keys|
  {
    if keys != [] { EmptyListing(params, keys[..|keys| - 1], prefix); }
  }

  predicate AtOrBelow(oid: string, x: string) { x == oid || oid + "/" <= x }

  ghost function Pick(infos: seq<Info>, oid: string): seq<Info> {
    if infos == [] then []
    else
      Pick(infos[..|infos| - 1], oid) + if AtOrBelow(oid, infos[|infos| - 1].oid) then [infos[|infos| - 1]] else []
  }

  ghost predicate AllBelow(infos: seq<Info>, oid: string) {
    forall k :: 0 <= k < |infos| ==> AtOrBelow(oid, infos[k].oid)
  }

  lemma {:induction false} PickBoth(a: seq<Info>, b: seq<Info>, oid: string)
    ensures Pick(a + b, oid) == Pick(a, oid) + Pick(b, oid)
  {
    hide AtOrBelow;
    if b == [] {
      assert a + b == a;
    } else {
      PickBoth(a, b[..|b| - 1], oid);
      assert (a + b)[..|a + b| - 1] == a + b[..|b| - 1];
    }
  }

  lemma PickAll(infos: seq<Info>, oid: string)
    requires AllBelow(infos, oid)
    ensures Pick(infos, oid) == infos
  {
    hide AtOrBelow;
    if infos != [] { PickAll(infos[..|infos| - 1], oid); }
  }

  lemma PickNone(infos: seq<Info>, oid: string)
    requires forall k :: 0 <= k < |infos| ==> !AtOrBelow(oid, infos[k].oid)
    ensures Pick(infos, oid) == []
  {
    hide AtOrBelow;
    if infos != [] { PickNone(infos[..|infos| - 1], oid); }
  }

  lemma BelowTransitive(a: string, b: string, x: string)
    requires AtOrBelow(a, b) && AtOrBelow(b, x)
    ensures AtOrBelow(a, x)
  {
    if a != b && x != b {
      assert x[..|a| + 1] == b[..|a| + 1];
    }
  }

  /** Two siblings have no oid below both. */
  lemma Siblings(prefix: string, a: string, b: string, x: string)
    requires '/' !in a && '/' !in b && a != b
    requires AtOrBelow(OidOf(prefix, a), x)
    ensures !AtOrBelow(OidOf(prefix, b), x)
  {
    if AtOrBelow(OidOf(prefix, b), x) {
      var n := if prefix == "" then 0 else |prefix| + 1;
      NameAt(prefix, a, x);
      NameAt(prefix, b, x);
      SameName(a, b, x, n);
    }
  }

  predicate NamedAt(a: string, x: string, n: nat) {
    n + |a| <= |x| && x[n..n + |a|] == a && (n + |a| < |x| ==> x[n + |a|] == '/')
  }

  lemma SameName(a: string, b: string, x: string, n: nat)
    requires NamedAt(a, x, n) && NamedAt(b, x, n) && '/' !in a && '/' !in b
    ensures a == b
  {
    LongerHasSlash(a, b, x, n);
    LongerHasSlash(b, a, x, n);
  }

  lemma LongerHasSlash(a: string, b: string, x: string, n: nat)
    requires NamedAt(a, x, n) && NamedAt(b, x, n)
    ensures |a| < |b| ==> '/' in b
  {
    if |a| < |b| { assert b[|a|] == x[n..n + |b|][|a|]; }
  }

  lemma NameAt(prefix: string, a: string, x: string)
    requires AtOrBelow(OidOf(prefix, a), x)
    ensures NamedAt(a, x, if prefix == "" then 0 else |prefix| + 1)
  {
    var n := if prefix == "" then 0 else |prefix| + 1;
    var oid := OidOf(prefix, a);
    assert x[..|oid|] == oid;
    assert x[n..n + |a|] == x[..|oid|][n..];
  }

  lemma EntryBelow(params: Json, key: string, prefix: string)
    requires params.Object? && Clean(params) && Rooted(params, prefix)
    ensures AllBelow(Entry(params, key, prefix, true), OidOf(prefix, key))
    decreases params, 0
  {
    if key in params.entries && params.entries[key].Object? {
      if OidOf(prefix, key) == "" {
        EmptyBelow(params.entries[key], "");
      } else {
        ChildrenBelow(params.entries[key], OidOf(prefix, key));
      }
    }
  }

  /** The lines of the children are strictly below their parent. */
  lemma ChildrenBelow(descriptor: Json, oid: string)
    requires oid != "" && (Children(descriptor).Some? ==> Clean(Children(descriptor).value))
    ensures forall k :: 0 <= k < |Below(descriptor, oid, true)| ==> oid + "/" <= Below(descriptor, oid, true)[k].oid
    decreases descriptor, 0
  {
    var c := Children(descriptor);
    if c.Some? { ListingBelow(c.value, Sorted(c.value.entries.Keys), oid); }
  }

  lemma ListingBelow(params: Json, keys: seq<string>, oid: string)
    requires params.Object? && Clean(params) && oid != ""
    ensures forall k :: 0 <= k < |Listing(params, keys, oid, true)| ==>
              oid + "/" <= Listing(params, keys, oid, true)[k].oid
    decreases params, 1, |keys|
  {
    if keys != [] {
      var key := keys[|keys| - 1];
      var infos := Entry(params, key, oid, true);
      ListingBelow(params, keys[..|keys| - 1], oid);
      EntryBelow(params, key, oid);
      forall k | 0 <= k < |infos| ensures oid + "/" <= infos[k].oid {
        assert AtOrBelow(oid + "/" + key, infos[k].oid);
      }
    }
  }

  // ------------------------------------------------------------- the two agree

  ghost function Slashed(parts: seq<string>): string {
    if parts == [] then "" else "/" + parts[0] + Slashed(parts[1..])
  }

  lemma {:induction false} JoinedSlashed(prefix: string, parts: seq<string>)
    requires prefix != ""
    ensures Joined(prefix, parts) == prefix + Slashed(parts)
    decreases |parts|
  {
    if parts != [] {
      JoinedSlashed(prefix + "/" + parts[0], parts[1..]);
      assert prefix + "/" + parts[0] + Slashed(parts[1..]) == prefix + ("/" + parts[0] + Slashed(parts[1..]));
    }
  }

  lemma SlashedFirst(first: string, rest: seq<string>)
    ensures Slashed([first] + rest) == "/" + (first + Slashed(rest))
  {
    assert ([first] + rest)[1..] == rest;
    assert "/" + first + Slashed(rest) == "/" + (first + Slashed(rest));
  }

  /** Joining what `strings.Split` cut gives the text back. */
  lemma {:induction false} SlashedParts(s: string)
    ensures Slashed(Parts(s)) == "/" + s
  {
    if s == "" {
      assert [""][1..] == [];
    } else {
      var rest := Parts(s[1..]);
      SlashedParts(s[1..]);
      hide Slashed;
      assert s == [s[0]] + s[1..];
      if s[0] == '/' {
        SlashedFirst("", rest);
        assert "" + Slashed(rest) == s;
      } else {
        SlashedFirst(rest[0], rest[1..]);
        assert [rest[0]] + rest[1..] == rest;
        Cancel(rest[0] + Slashed(rest[1..]), s[1..]);
        SlashedFirst([s[0]] + rest[0], rest[1..]);
        assert [s[0]] + rest[0] + Slashed(rest[1..]) == [s[0]] + (rest[0] + Slashed(rest[1..]));
      }
    }
  }

  lemma JoinedParts(oid: string)
    requires Parts(oid)[0] != ""
    ensures Joined("", Parts(oid)) == oid
  {
    var parts := Parts(oid);
    SlashedParts(oid);
    hide Parts;
    JoinedSlashed(parts[0], parts[1..]);
    assert "/" + parts[0] + Slashed(parts[1..]) == "/" + (parts[0] + Slashed(parts[1..]));
    Cancel(parts[0] + Slashed(parts[1..]), oid);
  }

  lemma Cancel(a: string, b: string)
    requires "/" + a == "/" + b
    ensures a == b
  {
    assert a == ("/" + a)[1..] && b == ("/" + b)[1..];
  }

  /** What a target is joined from is below its first step. */
  lemma JoinedBelow(prefix: string, parts: seq<string>)
    requires parts != [] && (prefix != "" || parts[0] != "")
    ensures Joined(prefix, parts) == OidOf(prefix, parts[0]) + Slashed(parts[1..])
    ensures AtOrBelow(OidOf(prefix, parts[0]), Joined(prefix, parts))
  {
    JoinedSlashed(OidOf(prefix, parts[0]), parts[1..]);
  }

  /** The request as a list: nothing when there is nothing. */
  ghost function Answer(params: Json, prefix: string, parts: seq<string>): seq<Info>
    requires params.Object? && parts != []
  {
    match Find(params, parts)
    case None => []
    case Some(d) => [Info(Joined(prefix, parts), d)] + Below(d, Joined(prefix, parts), true)
  }

  ghost predicate Target(prefix: string, parts: seq<string>) {
    parts != [] && (prefix != "" || parts[0] != "") && forall k <- parts :: '/' !in k
  }

  lemma PickOther(params: Json, key: string, prefix: string, parts: seq<string>)
    requires params.Object? && Clean(params) && Rooted(params, prefix) && Target(prefix, parts) && key != parts[0]
    ensures Pick(Entry(params, key, prefix, true), Joined(prefix, parts)) == []
  {
    var infos, oid := Entry(params, key, prefix, true), Joined(prefix, parts);
    JoinedBelow(prefix, parts);
    EntryBelow(params, key, prefix);
    if key in params.entries && params.entries[key].Object? {
      forall k | 0 <= k < |infos| ensures !AtOrBelow(oid, infos[k].oid) {
        Siblings(prefix, key, parts[0], infos[k].oid);
        if AtOrBelow(oid, infos[k].oid) { BelowTransitive(OidOf(prefix, parts[0]), oid, infos[k].oid); }
      }
    }
    PickNone(infos, oid);
  }

  lemma PickSame(params: Json, prefix: string, parts: seq<string>)
    requires params.Object? && Clean(params) && Rooted(params, prefix) && Target(prefix, parts)
    ensures Pick(Entry(params, parts[0], prefix, true), Joined(prefix, parts)) == Answer(params, prefix, parts)
    decreases |parts|, 0
  {
    var key, oid := parts[0], Joined(prefix, parts);
    var infos := Entry(params, key, prefix, true);
    if key in params.entries && params.entries[key].Object? {
      var d := params.entries[key];
      if |parts| == 1 {
        assert Joined(OidOf(prefix, key), parts[1..]) == OidOf(prefix, key);
        EntryBelow(params, key, prefix);
        PickAll(infos, oid);
      } else {
        var top, c := OidOf(prefix, key), Children(d);
        JoinedBelow(prefix, parts);
        assert |oid| > |top|;
        PickBoth([Info(top, d)], Below(d, top, true), oid);
        PickNone([Info(top, d)], oid);
        if c.Some? {
          PickFlat(c.value, top, parts[1..]);
        }
      }
    }
  }

  lemma PickFlat(params: Json, prefix: string, parts: seq<string>)
    requires params.Object? && Clean(params) && Rooted(params, prefix) && Target(prefix, parts)
    ensures Pick(Flat(params, prefix, true), Joined(prefix, parts)) == Answer(params, prefix, parts)
    decreases |parts|, 2
  {
    var keys := Sorted(params.entries.Keys);
    PickListing(params, keys, prefix, parts);
    if parts[0] in keys { assert parts[0] in KeySet(keys); } else { assert parts[0] !in KeySet(keys); }
  }

  lemma PickListing(params: Json, keys: seq<string>, prefix: string, parts: seq<string>)
    requires params.Object? && Clean(params) && Rooted(params, prefix) && Target(prefix, parts) && Ascending(keys)
    ensures Pick(Listing(params, keys, prefix, true), Joined(prefix, parts))
         == if parts[0] in keys then Answer(params, prefix, parts) else []
    decreases |parts|, 1, |keys|
  {
    if keys != [] {
      var before, key := keys[..|keys| - 1], keys[|keys| - 1];
      PickListing(params, before, prefix, parts);
      PickBoth(Listing(params, before, prefix, true), Entry(params, key, prefix, true), Joined(prefix, parts));
      if key == parts[0] {
        forall k <- before ensures k != key { BeforeTotal(k, key); }
        PickSame(params, prefix, parts);
      } else {
        PickOther(params, key, prefix, parts);
      }
    }
  }

  /** A recursive request for an oid gives the lines of the full listing that are at or below
      it, in the same order, and it finds nothing exactly if there are none. */
  ghost predicate Agrees(params: Json, oid: string)
    requires params.Object?
  {
    var picked := Pick(Flat(params, "", true), oid);
    Requested(params, oid, true) == if picked == [] then Outcome.NotFound else Found(picked)
  }

  lemma SubtreeListing(params: Json, oid: string)
    requires params.Object? && Clean(params) && Rooted(params, "") && oid != ""
    ensures Agrees(params, oid)
  {
    var parts := Parts(oid);
    if parts[0] == "" {
      SlashedParts(oid);
      LeadingSlash(params, Sorted(params.entries.Keys), oid);
    } else {
      JoinedParts(oid);
      PickFlat(params, "", parts);
    }
  }

  lemma NothingBelowEmpty(params: Json, oid: string)
    requires params.Object? && Rooted(params, "") && oid != "" && Parts(oid)[0] == ""
    ensures Find(params, Parts(oid)).None?
  {
  }

  /** Nothing in the listing begins with a slash, and nothing is below the empty name. */
  lemma LeadingSlash(params: Json, keys: seq<string>, oid: string)
    requires params.Object? && Clean(params) && Rooted(params, "") && oid != "" && Parts(oid)[0] == ""
    ensures oid[0] == '/' && FindOid(params, oid).None?
    ensures Pick(Listing(params, keys, "", true), oid) == []
  {
    NothingBelowEmpty(params, oid);
    hide Find, Clean, Rooted, Entry;
    if keys != [] {
      var before, key := keys[..|keys| - 1], keys[|keys| - 1];
      LeadingSlash(params, before, oid);
      PickBoth(Listing(params, before, "", true), Entry(params, key, "", true), oid);
      LeadingSlashEntry(params, key, oid);
    }
  }

  lemma LeadingSlashEntry(params: Json, key: string, oid: string)
    requires params.Object? && Clean(params) && Rooted(params, "") && oid != "" && oid[0] == '/'
    ensures Pick(Entry(params, key, "", true), oid) == []
  {
    var infos := Entry(params, key, "", true);
    EntryBelow(params, key, "");
    if key in params.entries && params.entries[key].Object? {
      if key == "" { EmptyBelow(params.entries[key], ""); }
      forall k | 0 <= k < |infos| ensures !AtOrBelow(oid, infos[k].oid) {
        assert AtOrBelow(key, infos[k].oid);
        assert key != "" ==> infos[k].oid[0] == key[0] && key[0] in key;
      }
    }
    PickNone(infos, oid);
  }

  /** With a slash in a name the two disagree: the line is listed but cannot be asked for. */
  lemma SlashedNameNotFound(name: string)
    requires '/' in name
    ensures var params := Object(map[name := Object(map[])]);
            Flat(params, "", true) == [Info(name, Object(map[]))] && Requested(params, name, true) == Outcome.NotFound
  {
    var params := Object(map[name := Object(map[])]);
    assert KeySet([name]) == params.entries.Keys;
    AscendingUnique([name], Sorted(params.entries.Keys));
    assert [name][..0] == [];
    assert Parts(name)[0] != name;
    var d := Object(map[]);
    assert Below(d, name, true) == [];
    assert Entry(params, name, "", true) == [Info(name, d)];
    assert Listing(params, [], "", true) == [];
    assert Listing(params, [name], "", true) == [Info(name, d)];
  }

  // ----------------------------------------------------------------- no oid twice

  ghost predicate NoneTwice(infos: seq<Info>) {
    forall i, j :: 0 <= i < j < |infos| ==> infos[i].oid != infos[j].oid
  }

  /** No oid is listed twice. */
  lemma ListedOnce(params: Json, prefix: string)
    requires params.Object? && Clean(params) && Rooted(params, prefix)
    ensures NoneTwice(Flat(params, prefix, true))
    decreases params, 3
  {
    ListingOnce(params, Sorted(params.entries.Keys), prefix);
  }

  lemma EntryOnce(params: Json, key: string, prefix: string)
    requires params.Object? && Clean(params) && Rooted(params, prefix)
    ensures NoneTwice(Entry(params, key, prefix, true))
    decreases params, 1
  {
    if key in params.entries && params.entries[key].Object? {
      var d, oid := params.entries[key], OidOf(prefix, key);
      if oid == "" {
        EmptyBelow(d, oid);
      } else {
        ChildrenBelow(d, oid);
        if Children(d).Some? { ListedOnce(Children(d).value, oid); }
      }
    }
  }

  ghost predicate BelowOneOf(oid: string, keys: seq<string>, prefix: string) {
    exists k <- keys :: '/' !in k && AtOrBelow(OidOf(prefix, k), oid)
  }

  lemma ListingOnce(params: Json, keys: seq<string>, prefix: string)
    requires params.Object? && Clean(params) && Rooted(params, prefix)
    requires Ascending(keys) && forall k <- keys :: k in params.entries
    ensures NoneTwice(Listing(params, keys, prefix, true))
    ensures forall i :: 0 <= i < |Listing(params, keys, prefix, true)| ==>
              BelowOneOf(Listing(params, keys, prefix, true)[i].oid, keys, prefix)
    decreases params, 2, |keys|
  {
    if keys != [] {
      var before, key := keys[..|keys| - 1], keys[|keys| - 1];
      var first, infos := Listing(params, before, prefix, true), Entry(params, key, prefix, true);
      ListingOnce(params, before, prefix);
      EntryOnce(params, key, prefix);
      EntryBelow(params, key, prefix);
      forall i, j | 0 <= i < |first| && 0 <= j < |infos| ensures first[i].oid != infos[j].oid {
        assert BelowOneOf(first[i].oid, before, prefix);
        var k :| k in before && '/' !in k && AtOrBelow(OidOf(prefix, k), first[i].oid);
        BeforeTotal(k, key);
        Siblings(prefix, k, key, first[i].oid);
      }
      var all := Listing(params, keys, prefix, true);
      forall i | 0 <= i < |all| ensures BelowOneOf(all[i].oid, keys, prefix) {
        if i < |first| {
          assert BelowOneOf(first[i].oid, before, prefix);
        } else {
          assert key in keys && AtOrBelow(OidOf(prefix, key), infos[i - |first|].oid);
        }
      }
    }
  }

  // ------------------------------------------------------------ and only then

  /** What is found is listed, under the names it was found by. */
  lemma {:induction false} FoundListed(params: Json, prefix: string, parts: seq<string>)
    requires params.Object? && parts != [] && Find(params, parts).Some?
    ensures Info(Joined(prefix, parts), Find(params, parts).value) in Entry(params, parts[0], prefix, true)
    ensures Info(Joined(prefix, parts), Find(params, parts).value) in Flat(params, prefix, true)
    decreases |parts|
  {
    var d, oid := params.entries[parts[0]], OidOf(prefix, parts[0]);
    if |parts| == 1 {
      assert Joined(oid, parts[1..]) == oid;
    } else {
      FoundListed(Children(d).value, oid, parts[1..]);
    }
    var i := Position(params, parts[0]);
    var rest := Around(params, Sorted(params.entries.Keys), i, prefix);
  }

  lemma Position(params: Json, key: string) returns (i: nat)
    requires params.Object? && key in params.entries
    ensures i < |Sorted(params.entries.Keys)| && Sorted(params.entries.Keys)[i] == key
  {
    var keys := Sorted(params.entries.Keys);
    assert key in KeySet(keys);
    i :| 0 <= i < |keys| && keys[i] == key;
  }

  lemma {:induction false} Around(params: Json, keys: seq<string>, i: nat, prefix: string) returns (rest: seq<Info>)
    requires params.Object? && i < |keys|
    ensures Listing(params, keys, prefix, true)
         == Listing(params, keys[..i], prefix, true) + Entry(params, keys[i], prefix, true) + rest
    decreases |keys|
  {
    hide Entry;
    if i == |keys| - 1 {
      rest := [];
    } else {
      var before := keys[..|keys| - 1];
      var middle := Around(params, before, i, prefix);
      assert before[..i] == keys[..i];
      rest := middle + Entry(params, keys[|keys| - 1], prefix, true);
    }
  }

  lemma PartOnce(a: seq<Info>, b: seq<Info>, c: seq<Info>)
    requires NoneTwice(a + b + c)
    ensures NoneTwice(b)
  {
    var all := a + b + c;
    forall i, j | 0 <= i < j < |b| ensures b[i].oid != b[j].oid {
      assert b[i] == all[|a| + i] && b[j] == all[|a| + j];
    }
  }

  lemma BothOnce(a: seq<Info>, b: seq<Info>, c: seq<Info>, x: Info, y: Info)
    requires NoneTwice(a + b + c) && x in a && y in b
    ensures x.oid != y.oid
  {
    var i :| 0 <= i < |a| && a[i] == x;
    var j :| 0 <= j < |b| && b[j] == y;
    assert (a + b + c)[i] == x && (a + b + c)[|a| + j] == y;
  }

  /** If no oid is listed twice, then it is listed for one path of names only. */
  lemma {:induction false} OidDeterminesPath(params: Json, prefix: string, a: seq<string>, b: seq<string>)
    requires params.Object? && a != [] && b != [] && Find(params, a).Some? && Find(params, b).Some?
    requires NoneTwice(Flat(params, prefix, true)) && Joined(prefix, a) == Joined(prefix, b)
    ensures a == b
    decreases |a|
  {
    var keys := Sorted(params.entries.Keys);
    FoundListed(params, prefix, a);
    FoundListed(params, prefix, b);
    if a[0] == b[0] {
      var i := Position(params, a[0]);
      var rest := Around(params, keys, i, prefix);
      PartOnce(Listing(params, keys[..i], prefix, true), Entry(params, a[0], prefix, true), rest);
      SameEntry(params, prefix, a, b);
    } else {
      var i := Position(params, a[0]);
      var j := Position(params, b[0]);
      if i < j {
        OtherEntry(params, prefix, a, b, i, j);
      } else {
        OtherEntry(params, prefix, b, a, j, i);
      }
    }
  }

  lemma OtherEntry(params: Json, prefix: string, a: seq<string>, b: seq<string>, i: nat, j: nat)
    requires params.Object? && a != [] && b != [] && Find(params, a).Some? && Find(params, b).Some?
    requires i < j < |Sorted(params.entries.Keys)|
    requires Sorted(params.entries.Keys)[i] == a[0] && Sorted(params.entries.Keys)[j] == b[0]
    requires NoneTwice(Flat(params, prefix, true))
    ensures Joined(prefix, a) != Joined(prefix, b)
  {
    var keys := Sorted(params.entries.Keys);
    FoundListed(params, prefix, a);
    FoundListed(params, prefix, b);
    hide Find, Entry, Joined, Listing, NoneTwice;
    var last := Around(params, keys, j, prefix);
    assert keys[..j][..i] == keys[..i];
    var middle := Around(params, keys[..j], i, prefix);
    BothOnce(Listing(params, keys[..j], prefix, true), Entry(params, b[0], prefix, true), last,
             Info(Joined(prefix, a), Find(params, a).value), Info(Joined(prefix, b), Find(params, b).value));
  }

  lemma DeeperOther(params: Json, prefix: string, parts: seq<string>)
    requires params.Object? && parts != [] && Find(params, parts).Some?
    requires NoneTwice(Entry(params, parts[0], prefix, true))
    ensures |parts| > 1 <==> Joined(prefix, parts) != OidOf(prefix, parts[0])
  {
    var d, oid := params.entries[parts[0]], OidOf(prefix, parts[0]);
    if |parts| > 1 {
      FoundListed(Children(d).value, oid, parts[1..]);
      assert [Info(oid, d)] + Below(d, oid, true) == [Info(oid, d)] + Below(d, oid, true) + [];
      BothOnce([Info(oid, d)], Below(d, oid, true), [], Info(oid, d),
               Info(Joined(prefix, parts), Find(params, parts).value));
    }
  }

  lemma SameEntry(params: Json, prefix: string, a: seq<string>, b: seq<string>)
    requires params.Object? && a != [] && b != [] && a[0] == b[0]
    requires Find(params, a).Some? && Find(params, b).Some?
    requires NoneTwice(Entry(params, a[0], prefix, true)) && Joined(prefix, a) == Joined(prefix, b)
    ensures a == b
    decreases |a|, 0
  {
    var d, oid := params.entries[a[0]], OidOf(prefix, a[0]);
    assert a == [a[0]] + a[1..] && b == [b[0]] + b[1..];
    DeeperOther(params, prefix, a);
    DeeperOther(params, prefix, b);
    if |a| > 1 && |b| > 1 {
      assert [Info(oid, d)] + Below(d, oid, true) == [Info(oid, d)] + Below(d, oid, true) + [];
      PartOnce([Info(oid, d)], Below(d, oid, true), []);
      OidDeterminesPath(Children(d).value, oid, a[1..], b[1..]);
    }
  }

  /** A name with a slash is at the end of some path. */
  lemma {:induction false} SlashedPath(params: Json) returns (parts: seq<string>)
    requires params.Object? && !Clean(params)
    ensures parts != [] && Find(params, parts).Some? && '/' in parts[|parts| - 1]
    decreases params
  {
    var k :| && k in params.entries && params.entries[k].Object?
             && ('/' in k || (var c := Children(params.entries[k]); c.Some? && !Clean(c.value)));
    if '/' in k {
      parts := [k];
    } else {
      var rest := SlashedPath(Children(params.entries[k]).value);
      parts := [k] + rest;
      assert parts[1..] == rest;
    }
  }

  lemma JoinedNonEmpty(prefix: string, parts: seq<string>)
    requires parts != [] && parts[|parts| - 1] != ""
    ensures Joined(prefix, parts) != ""
    decreases |parts|
  {
    if |parts| == 1 {
      assert Joined(OidOf(prefix, parts[0]), parts[1..]) == OidOf(prefix, parts[0]);
    } else {
      JoinedNonEmpty(OidOf(prefix, parts[0]), parts[1..]);
    }
  }

  lemma PickHas(infos: seq<Info>, x: Info)
    requires x in infos
    ensures x in Pick(infos, x.oid)
  {
    if infos[|infos| - 1] != x {
      assert infos == infos[..|infos| - 1] + [infos[|infos| - 1]];
      PickHas(infos[..|infos| - 1], x);
    }
  }

  /** What is listed under an oid can be asked for by it. */
  lemma ListedFound(params: Json, parts: seq<string>)
    requires params.Object? && parts != [] && Find(params, parts).Some?
    requires Joined("", parts) != "" && Agrees(params, Joined("", parts))
    ensures Find(params, Parts(Joined("", parts))).Some?
  {
    FoundListed(params, "", parts);
    PickHas(Flat(params, "", true), Info(Joined("", parts), Find(params, parts).value));
  }

  /** The listing answers every request, and lists no oid twice, exactly if no name in it holds
      a slash and there is nothing below an empty name at the top. */
  lemma AgreeIff(params: Json)
    requires params.Object?
    ensures (forall oid | oid != "" :: Agrees(params, oid)) && NoneTwice(Flat(params, "", true))
       <==> Clean(params) && Rooted(params, "")
  {
    hide Agrees, NoneTwice, Clean, Rooted;
    if Clean(params) && Rooted(params, "") {
      forall oid | oid != "" ensures Agrees(params, oid) { SubtreeListing(params, oid); }
      ListedOnce(params, "");
    }
    if (forall oid | oid != "" :: Agrees(params, oid)) && NoneTwice(Flat(params, "", true)) {
      AgreesRooted(params);
      AgreesClean(params);
    }
  }

  lemma AgreesClean(params: Json)
    requires params.Object? && Rooted(params, "") && NoneTwice(Flat(params, "", true))
    requires forall oid | oid != "" :: Agrees(params, oid)
    ensures Clean(params)
  {
    if !Clean(params) {
      var parts := SlashedPath(params);
      var oid := Joined("", parts);
      JoinedNonEmpty("", parts);
      hide Agrees, NoneTwice, Clean;
      ListedFound(params, parts);
      assert parts[|parts| - 1] in parts;
      if Parts(oid)[0] != "" {
        JoinedParts(oid);
        OidDeterminesPath(params, "", parts, Parts(oid));
        assert false;
      } else {
        NothingBelowEmpty(params, oid);
        assert false;
      }
    }
  }

  lemma AgreesRooted(params: Json)
    requires params.Object? && NoneTwice(Flat(params, "", true))
    requires forall oid | oid != "" :: Agrees(params, oid)
    ensures Rooted(params, "")
  {
    if !Rooted(params, "") {
      var c := Children(params.entries[""]).value;
      var k :| k in c.entries && c.entries[k].Object?;
      hide Agrees, NoneTwice;
      BelowEmpty(params, k);
      ListedFound(params, ["", k]);
      if Parts(k)[0] == "" {
        var x := Parts(k)[1];
        assert Find(c, Parts(k)[1..]).Some?;
        BelowEmpty(params, x);
        ListedFound(params, ["", x]);
        OnePart(x);
        JoinedParts(x);
        OidDeterminesPath(params, "", ["", x], Parts(x));
      } else {
        JoinedParts(k);
        OidDeterminesPath(params, "", ["", k], Parts(k));
      }
      assert false;
    }
  }

  /** A name below the empty name is listed as if it were at the top. */
  lemma BelowEmpty(params: Json, k: string)
    requires params.Object? && NoneTwice(Flat(params, "", true))
    requires "" in params.entries && params.entries[""].Object? && Children(params.entries[""]).Some?
    requires k in Children(params.entries[""]).value.entries
    requires Children(params.entries[""]).value.entries[k].Object?
    ensures Find(params, ["", k]).Some? && Joined("", ["", k]) == k && k != ""
  {
    assert ["", k][1..] == [k];
    assert Joined("", [k]) == k by { assert [k][1..] == []; }
    if k == "" {
      assert Joined("", [""]) == "";
      OidDeterminesPath(params, "", [""], ["", ""]);
    }
  }

  lemma OnePart(x: string)
    requires '/' !in x
    ensures Parts(x) == [x]
  {
    if x != "" {
      OnePart(x[1..]);
      assert x == [x[0]] + x[1..];
    }
  }

  ghost function Doubled(): Json {
    Object(map["" := Object(map["params" := Object(map["" := Object(map[])])]), "/" := Object(map[])])
  }

  /** Agreement alone is not enough: with two empty names, one below the other, and a name that
      is a slash, every request is answered, and the empty oid is listed twice. */
  lemma AgreementAlone()
    ensures !Clean(Doubled()) && forall oid | oid != "" :: Agrees(Doubled(), oid)
  {
    DoubledUnclean();
    hide Clean, Agrees;
    forall oid | oid != "" ensures Agrees(Doubled(), oid) { DoubledAgrees(oid); }
  }

  lemma DoubledUnclean()
    ensures !Clean(Doubled())
  {
    assert "/" in Doubled().entries && '/' in "/";
  }

  lemma DoubledAgrees(oid: string)
    requires oid != ""
    ensures Agrees(Doubled(), oid)
  {
    DoubledPick(oid);
    DoubledFind(oid);
    assert Below(Object(map[]), oid, true) == [];
    hide Doubled, Flat, Pick, FindOid, Below;
  }

  lemma DoubledFlat()
    ensures Doubled().entries[""].Object?
    ensures Flat(Doubled(), "", true)
         == [Info("", Doubled().entries[""]), Info("", Object(map[])), Info("/", Object(map[]))]
  {
    var leaf := Object(map[]);
    var below := Object(map["" := leaf]);
    var top := Object(map["params" := below]);
    SortedIs(below.entries.Keys, [""]);
    SortedIs(Doubled().entries.Keys, ["", "/"]);
    assert [""][..0] == [] && ["", "/"][..1] == [""];
    assert Below(leaf, "", true) == [] && Below(leaf, "/", true) == [];
    assert Listing(below, [""], "", true) == [Info("", leaf)];
    assert Below(top, "", true) == [Info("", leaf)];
    assert Listing(Doubled(), [""], "", true) == [Info("", top), Info("", leaf)];
    assert Listing(Doubled(), ["", "/"], "", true) == [Info("", top), Info("", leaf)] + [Info("/", leaf)];
  }

  lemma SortedIs(s: set<string>, keys: seq<string>)
    requires Ascending(keys) && KeySet(keys) == s
    ensures Sorted(s) == keys
  {
    AscendingUnique(keys, Sorted(s));
  }

  lemma DoubledPick(oid: string)
    requires oid != ""
    ensures Pick(Flat(Doubled(), "", true), oid) == if oid == "/" then [Info("/", Object(map[]))] else []
  {
    DoubledFlat();
    var a, b := [Info("", Doubled().entries[""]), Info("", Object(map[]))], [Info("/", Object(map[]))];
    assert Flat(Doubled(), "", true) == a + b;
    hide Flat, Doubled;
    PickNone(a, oid);
    PickBoth(a, b, oid);
    if oid == "/" { PickAll(b, oid); } else { PickNone(b, oid); }
  }

  lemma DoubledFind(oid: string)
    requires oid != ""
    ensures FindOid(Doubled(), oid) == if oid == "/" then Some(Object(map[])) else None
  {
    var parts := Parts(oid);
    SlashedParts(oid);
    assert parts[0] in parts && parts[0] != "/" by { assert '/' in "/"; }
    assert Slashed(["", ""]) == "//";
    if oid == "/" {
      assert parts == ["", ""];
    } else if |parts| == 1 {
      Cancel(parts[0], oid);
    } else if parts[0] == "" {
      assert ("/" + oid)[1..] == oid && "//"[1..] == "/";
      assert parts != ["", ""];
      assert Find(Doubled(), parts) == Find(Object(map["" := Object(map[])]), parts[1..]);
      assert |parts| == 2 ==> parts == [parts[0], parts[1]];
    }
  }
}
