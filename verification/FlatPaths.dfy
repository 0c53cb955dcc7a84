/** Flattening nested records into dotted paths, and that nothing is lost by it. */
module FlatPaths {
  import opened Results
  import opened JsonText

  /** The path of a member: the dot is left out at the very top. */
  function Under(prefix: Text, key: Text): Text {
    if prefix == "" then key else prefix + "." + key
  }

  /** flatten: records with members are opened, everything else is a value of its own. */
  function Flatten(v: Json, prefix: Text): map<Text, Json> {
    if v.Obj? && v.members.Member? then FlattenMembers(v.members, prefix) else map[prefix := v]
  }

  function FlattenMembers(m: Members, prefix: Text): map<Text, Json> {
    match m
    case NoMembers => map[]
    case Member(key, value, rest) => Flatten(value, Under(prefix, key)) + FlattenMembers(rest, prefix)
  }

  const DotFree: Text -> bool := (key: Text) => key != "" && '.' !in key

  // ---------- paths ----------

  function Join(segments: seq<Text>): Text
    decreases |segments|
  {
    if segments == [] then ""
    else Under(Join(segments[..|segments| - 1]), segments[|segments| - 1])
  }

  predicate Clean(segments: seq<Text>) {
    forall s <- segments :: DotFree(s)
  }

  lemma JoinNotEmpty(segments: seq<Text>)
    requires Clean(segments) && segments != []
    ensures Join(segments) != ""
  {
    assert segments[|segments| - 1] in segments;
  }

  /** What follows the last dot. */
  lemma LastDot(p: Text, s: Text, q: Text, t: Text)
    requires p + "." + s == q + "." + t && '.' !in s && '.' !in t
    ensures p == q && s == t
  {
    var x, y := p + "." + s, q + "." + t;
    assert x[|p|] == '.' && y[|q|] == '.';
    assert forall i :: |p| < i < |x| ==> x[i] == s[i - |p| - 1];
    assert forall i :: |q| < i < |y| ==> y[i] == t[i - |q| - 1];
    assert |p| == |q|;
    assert p == x[..|p|] && q == y[..|q|] && s == x[|p| + 1..] && t == y[|q| + 1..];
  }

  /** A dotted path has one reading. */
  lemma {:induction false} JoinInjective(a: seq<Text>, b: seq<Text>)
    requires Clean(a) && Clean(b) && Join(a) == Join(b)
    ensures a == b
    decreases |a|
  {
    if a == [] {
      if b != [] {
        JoinNotEmpty(b);
      }
    } else {
      JoinNotEmpty(a);
      assert b != [];
      var p, q, s, t := a[..|a| - 1], b[..|b| - 1], a[|a| - 1], b[|b| - 1];
      assert s in a && t in b;
      if Join(p) != "" && Join(q) != "" {
        LastDot(Join(p), s, Join(q), t);
      } else {
        DotInJoin(p, s);
        DotInJoin(q, t);
      }
      JoinInjective(p, q);
      assert a == p + [s] && b == q + [t];
    }
  }

  lemma DotInJoin(p: seq<Text>, s: Text)
    requires Clean(p) && DotFree(s)
    ensures '.' in Under(Join(p), s) <==> Join(p) != ""
  {
    if Join(p) != "" {
      assert (Join(p) + "." + s)[|Join(p)|] == '.';
    }
  }

  // ---------- what the flat map holds ----------

  /** The value at the end of a path, if the path ends there. */
  function Leaf(v: Json, path: seq<Text>): Option<Json>
    decreases v
  {
    if v.Obj? && v.members.Member? then LeafMembers(v.members, path)
    else if path == [] then Some(v) else None
  }

  function LeafMembers(m: Members, path: seq<Text>): Option<Json>
    decreases m
  {
    match m
    case NoMembers => None
    case Member(key, value, rest) =>
      if path == [] then None else if path[0] == key then Leaf(value, path[1..]) else LeafMembers(rest, path)
  }

  function Get(flat: map<Text, Json>, path: Text): Option<Json> {
    if path in flat then Some(flat[path]) else None
  }

  lemma GetMerged(f: map<Text, Json>, g: map<Text, Json>, path: Text)
    ensures Get(f + g, path) == if path in g then Get(g, path) else Get(f, path)
  {
  }

  lemma JoinUnder(at: seq<Text>, key: Text)
    ensures Join(at + [key]) == Under(Join(at), key)
  {
    assert (at + [key])[..|at|] == at;
  }

  /** Every path of the flat map lies below the prefix. */
  lemma {:induction false} FlattenWithin(v: Json, at: seq<Text>, text: Text) returns (path: seq<Text>)
    requires Keyed(v, DotFree) && text in Flatten(v, Join(at))
    ensures Clean(path) && text == Join(at + path)
    decreases v
  {
    if v.Obj? && v.members.Member? {
      path := FlattenMembersWithin(v.members, at, text);
    } else {
      path := [];
      assert at + [] == at;
    }
  }

  lemma {:induction false} FlattenMembersWithin(m: Members, at: seq<Text>, text: Text) returns (path: seq<Text>)
    requires KeyedMembers(m, DotFree) && text in FlattenMembers(m, Join(at))
    ensures Clean(path) && text == Join(at + path)
    decreases m
  {
    if text in FlattenMembers(m.rest, Join(at)) {
      path := FlattenMembersWithin(m.rest, at, text);
    } else {
      JoinUnder(at, m.key);
      var below := FlattenWithin(m.value, at + [m.key], text);
      path := [m.key] + below;
      assert at + path == at + [m.key] + below;
    }
  }

  lemma NotBelow(v: Json, at: seq<Text>, key: Text, path: seq<Text>)
    requires Keyed(v, DotFree) && DotFree(key) && Clean(at) && Clean(path) && (path == [] || path[0] != key)
    ensures Join(at + path) !in Flatten(v, Join(at + [key]))
  {
    assert forall p: seq<Text> :: (at + [key] + p)[|at|] == key;
    assert path != [] ==> (at + path)[|at|] == path[0];
    if Join(at + path) in Flatten(v, Join(at + [key])) {
      var p := FlattenWithin(v, at + [key], Join(at + path));
      JoinInjective(at + path, at + [key] + p);
    }
  }

  /** The flat map sends the paths that end in a value to that value, and no others. */
  lemma {:induction false} FlattenGet(v: Json, at: seq<Text>, path: seq<Text>)
    requires Keyed(v, DotFree) && Clean(at) && Clean(path)
    ensures Get(Flatten(v, Join(at)), Join(at + path)) == Leaf(v, path)
    decreases v
  {
    if v.Obj? && v.members.Member? {
      FlattenMembersGet(v.members, at, path);
    } else {
      assert at + [] == at;
      if Join(at + path) == Join(at) {
        JoinInjective(at + path, at);
      }
    }
  }

  lemma {:induction false} FlattenMembersGet(m: Members, at: seq<Text>, path: seq<Text>)
    requires KeyedMembers(m, DotFree) && Clean(at) && Clean(path)
    ensures Get(FlattenMembers(m, Join(at)), Join(at + path)) == LeafMembers(m, path)
    decreases m
  {
    if m.Member? {
      var below := at + [m.key];
      JoinUnder(at, m.key);
      GetMerged(Flatten(m.value, Join(below)), FlattenMembers(m.rest, Join(at)), Join(at + path));
      FlattenMembersGet(m.rest, at, path);
      if path != [] && path[0] == m.key {
        AbsentLeaf(m.rest, path);
        assert at + path == below + path[1..];
        FlattenGet(m.value, below, path[1..]);
      } else {
        NotBelow(m.value, at, m.key, path);
      }
    }
  }

  lemma {:induction false} AbsentLeaf(m: Members, path: seq<Text>)
    requires path == [] || path[0] !in Keys(m)
    ensures LeafMembers(m, path).None?
  {
    if m.Member? {
      AbsentLeaf(m.rest, path);
    }
  }

  // ---------- nothing is lost ----------

  ghost predicate SameLeaves(v: Json, w: Json) {
    forall path :: Clean(path) ==> Leaf(v, path) == Leaf(w, path)
  }

  lemma {:induction false} LeafLookup(m: Members, path: seq<Text>)
    requires path != []
    ensures LeafMembers(m, path) == match Lookup(m, path[0]) { case None => None case Some(x) => Leaf(x, path[1..]) }
  {
    if m.Member? && m.key != path[0] {
      LeafLookup(m.rest, path);
    }
  }

  /** Every record has some value in it. */
  lemma {:induction false} SomeLeaf(v: Json) returns (path: seq<Text>)
    requires Keyed(v, DotFree)
    ensures Clean(path) && Leaf(v, path).Some?
    decreases v
  {
    if v.Obj? && v.members.Member? {
      var rest := SomeLeaf(v.members.value);
      path := [v.members.key] + rest;
    } else {
      path := [];
    }
  }

  lemma {:induction false} SameLeavesSame(v: Json, w: Json)
    requires Keyed(v, DotFree) && Keyed(w, DotFree) && SameLeaves(v, w)
    ensures Same(v, w)
    decreases JsonSize(v)
  {
    assert Clean([]) && Leaf(v, []) == Leaf(w, []);
    if v.Obj? && v.members.Member? {
      KeysMatch(v, w);
      KeysMatch(w, v);
      forall key | key in Keys(v.members) ensures SameAt(v.members, w.members, key) {
        LookupKeys(v.members, key);
        LookupKeys(w.members, key);
        MemberLeaves(v.members, w.members, key);
        SameLeavesSame(Lookup(v.members, key).value, Lookup(w.members, key).value);
      }
      SameMembersMeans(v.members, w.members, DotFree);
    }
  }

  lemma KeysMatch(v: Json, w: Json)
    requires Keyed(v, DotFree) && Keyed(w, DotFree) && SameLeaves(v, w) && v.Obj? && w.Obj? && v.members.Member?
    ensures Keys(v.members) <= Keys(w.members)
  {
    forall key | key in Keys(v.members) ensures key in Keys(w.members) {
      LookupKeys(v.members, key);
      KeyedLookup(v.members, key, DotFree);
      var rest := SomeLeaf(Lookup(v.members, key).value);
      var path := [key] + rest;
      LeafLookup(v.members, path);
      assert Clean(path) && Leaf(v, path).Some?;
      if key !in Keys(w.members) {
        AbsentLeaf(w.members, path);
      }
    }
  }

  lemma MemberLeaves(l: Members, r: Members, key: Text)
    requires KeyedMembers(l, DotFree) && KeyedMembers(r, DotFree) && SameLeaves(Obj(l), Obj(r))
    requires Lookup(l, key).Some? && Lookup(r, key).Some?
    ensures SameLeaves(Lookup(l, key).value, Lookup(r, key).value)
    ensures Keyed(Lookup(l, key).value, DotFree) && Keyed(Lookup(r, key).value, DotFree)
  {
    KeyedLookup(l, key, DotFree);
    KeyedLookup(r, key, DotFree);
    forall path | Clean(path) ensures Leaf(Lookup(l, key).value, path) == Leaf(Lookup(r, key).value, path) {
      var whole := [key] + path;
      assert Clean(whole) && whole[1..] == path;
      LeafLookup(l, whole);
      LeafLookup(r, whole);
      assert Leaf(Obj(l), whole) == Leaf(Obj(r), whole);
    }
  }

  lemma {:induction false} SameSameLeaves(v: Json, w: Json, path: seq<Text>)
    requires Keyed(v, DotFree) && Same(v, w)
    ensures Leaf(v, path) == Leaf(w, path)
    decreases |path|
  {
    if v.Obj? && w.Obj? {
      SameMembersMeans(v.members, w.members, DotFree);
      if path != [] {
        LeafLookup(v.members, path);
        LeafLookup(w.members, path);
        LookupKeys(v.members, path[0]);
        LookupKeys(w.members, path[0]);
        if path[0] in Keys(v.members) {
          assert SameAt(v.members, w.members, path[0]);
          KeyedLookup(v.members, path[0], DotFree);
          SameSameLeaves(Lookup(v.members, path[0]).value, Lookup(w.members, path[0]).value, path[1..]);
        }
      }
    }
  }

  /** Two records without dots in their keys flatten alike exactly if they are equal up to the
      order of members. */
  lemma FlattenExactly(v: Json, w: Json)
    requires Keyed(v, DotFree) && Keyed(w, DotFree)
    ensures Flatten(v, "") == Flatten(w, "") <==> Same(v, w)
  {
    if Flatten(v, "") == Flatten(w, "") {
      forall path | Clean(path) ensures Leaf(v, path) == Leaf(w, path) {
        FlattenGet(v, [], path);
        FlattenGet(w, [], path);
      }
      SameLeavesSame(v, w);
    }
    if Same(v, w) {
      forall text ensures Get(Flatten(v, ""), text) == Get(Flatten(w, ""), text) {
        SameFlat(v, w, text);
      }
      SameGets(Flatten(v, ""), Flatten(w, ""));
    }
  }

  lemma SameFlat(v: Json, w: Json, text: Text)
    requires Keyed(v, DotFree) && Keyed(w, DotFree) && Same(v, w)
    ensures Get(Flatten(v, ""), text) == Get(Flatten(w, ""), text)
  {
    if text in Flatten(v, "") || text in Flatten(w, "") {
      var path: seq<Text>;
      if text in Flatten(v, "") {
        path := FlattenWithin(v, [], text);
      } else {
        path := FlattenWithin(w, [], text);
      }
      FlattenGet(v, [], path);
      FlattenGet(w, [], path);
      SameSameLeaves(v, w, path);
    }
  }

  lemma SameGets(f: map<Text, Json>, g: map<Text, Json>)
    requires forall text :: Get(f, text) == Get(g, text)
    ensures f == g
  {
    forall text ensures text in f <==> text in g {
      assert Get(f, text) == Get(g, text);
    }
    forall text | text in f ensures f[text] == g[text] {
      assert Get(f, text) == Get(g, text);
    }
  }
}
