/** Go struct types as redisapi sees them through reflection, the redis field tag, and the
    path of field numbers by which a field of an embedded struct is reached. */
module GoTypes {
  import opened Texts

  datatype Kind =
    | IntKind(bits: Width)
    | UintKind(bits: Width)
    | BoolKind
    | StringKind
    | BytesKind   // a slice whose elements are bytes
    | FloatKind
    | OtherKind   // every kind the converters refuse

  /** The widths of Go's integer kinds. */
  newtype Width = w: int | 8 <= w <= 64 witness 64

  datatype Type = Struct(fields: seq<Field>) | Basic(kind: Kind)

  /** `tag` is the value of the `redis` key in the field's tag. */
  datatype Field = Field(name: string, pkgPath: string, anonymous: bool, tag: string, typ: Type)

  datatype FieldSpec = FieldSpec(name: string, index: seq<nat>, omitEmpty: bool)

  datatype Role =
    | Ignored                               // unexported, tagged "-", or a non-struct embedded field
    | Embedded                              // an embedded struct: its fields are visited in place
    | Leaf(name: string, omitEmpty: bool)   // an exported field with its effective name
    | BadTag                                // an unknown tag option

  function RoleOf(f: Field): Role {
    if f.pkgPath != "" && !f.anonymous then Ignored
    else if f.anonymous then (if f.typ.Struct? then Embedded else Ignored)
    else
      var p := Split(f.tag);
      if p[0] == "-" then Ignored
      else if exists k :: 1 <= k < |p| && p[k] != "omitempty" then BadTag
      else Leaf(if |p[0]| > 0 then p[0] else f.name, |p| > 1)
  }

  /** The role of the field that `p` leads to, when every step before the last enters an embedded
      struct; Ignored when `p` is not such a path. */
  function RoleAt(t: Type, p: seq<nat>): Role
    decreases |p|
  {
    if !t.Struct? || |p| == 0 || p[0] >= |t.fields| then Ignored
    else if |p| == 1 then RoleOf(t.fields[p[0]])
    else if RoleOf(t.fields[p[0]]).Embedded? then RoleAt(t.fields[p[0]].typ, p[1..])
    else Ignored
  }

  /** The tag `name` followed by k times ",omitempty". */
  function TagOf(name: string, k: nat): string {
    if k == 0 then name else TagOf(name, k - 1) + ",omitempty"
  }

  function Options(k: nat): (opts: seq<string>)
    ensures |opts| == k && forall i :: 0 <= i < k ==> opts[i] == "omitempty"
  {
    seq(k, _ => "omitempty")
  }

  lemma {:induction false} TagIsJoined(name: string, k: nat)
    ensures TagOf(name, k) == Join([name] + Options(k))
    decreases k
  {
    if k == 0 {
      assert [name] + Options(0) == [name];
    } else {
      TagIsJoined(name, k - 1);
      JoinConcat([name] + Options(k - 1), ["omitempty"]);
      assert [name] + Options(k) == ([name] + Options(k - 1)) + ["omitempty"];
    }
  }

  /** The role of an exported field that is not embedded, from the parts of its tag. */
  lemma RoleFromParts(f: Field, name: string, opts: seq<string>)
    requires f.pkgPath == "" && !f.anonymous && NoComma(name) && forall i :: 0 <= i < |opts| ==> NoComma(opts[i])
    requires f.tag == Join([name] + opts)
    ensures name == "-" ==> RoleOf(f) == Ignored
    ensures name != "-" && (exists i :: 0 <= i < |opts| && opts[i] != "omitempty") ==> RoleOf(f) == BadTag
    ensures name != "-" && (forall i :: 0 <= i < |opts| ==> opts[i] == "omitempty") ==>
              RoleOf(f) == Leaf(if name == "" then f.name else name, |opts| > 0)
  {
    SplitJoined([name] + opts);
    if i :| 0 <= i < |opts| && opts[i] != "omitempty" {
      assert ([name] + opts)[i + 1] == opts[i];
    }
  }

  /** A tag names the field, and says whether an empty value is omitted; without a name in it the field
      keeps its own. */
  lemma TaggedRole(f: Field, name: string, k: nat)
    requires f.pkgPath == "" && !f.anonymous && NoComma(name) && name != "-" && f.tag == TagOf(name, k)
    ensures RoleOf(f) == Leaf(if name == "" then f.name else name, k > 0)
  {
    TagIsJoined(name, k);
    RoleFromParts(f, name, Options(k));
  }

  /** Every tag has such parts, so that these are all the exported fields that are not embedded. */
  lemma EveryTagHasParts(f: Field) returns (name: string, opts: seq<string>)
    ensures NoComma(name) && (forall i :: 0 <= i < |opts| ==> NoComma(opts[i])) && f.tag == Join([name] + opts)
  {
    SplitParts(f.tag);
    var p := Split(f.tag);
    name, opts := p[0], p[1..];
    assert [name] + opts == p;
  }

  /** An embedded struct is entered, whether its type is exported or not; what else is embedded, and
      what is not exported, is ignored. */
  lemma UntaggedRoles(f: Field)
    ensures f.anonymous && f.typ.Struct? ==> RoleOf(f) == Embedded
    ensures f.anonymous && !f.typ.Struct? ==> RoleOf(f) == Ignored
    ensures !f.anonymous && f.pkgPath != "" ==> RoleOf(f) == Ignored
  {
  }

  /** A path of one number leads to a field of the struct, a longer one into an embedded struct. */
  lemma RoleOfPath(t: Type, i: nat, p: seq<nat>)
    requires t.Struct? && i < |t.fields|
    ensures RoleAt(t, [i]) == RoleOf(t.fields[i])
    ensures p != [] && RoleOf(t.fields[i]) == Embedded ==> RoleAt(t, [i] + p) == RoleAt(t.fields[i].typ, p)
    ensures p != [] && RoleOf(t.fields[i]) != Embedded ==> RoleAt(t, [i] + p) == Ignored
  {
    assert ([i] + p)[1..] == p;
  }

  /** A tag with an unknown option somewhere in the tree of embedded structs. */
  ghost predicate HasBadTag(t: Type) {
    exists p: seq<nat> :: RoleAt(t, p).BadTag?
  }

  ghost predicate IsPrefix(p: seq<nat>, q: seq<nat>) {
    |p| <= |q| && q[..|p|] == p
  }

  lemma {:induction false} LeafPathsPrefixFree(t: Type, p: seq<nat>, q: seq<nat>)
    requires RoleAt(t, p).Leaf? && RoleAt(t, q).Leaf? && p != q
    ensures !IsPrefix(p, q)
    decreases |p|
  {
    if |p| > 1 && |q| > 1 && p[0] == q[0] {
      assert p == [p[0]] + p[1..] && q == [q[0]] + q[1..];
      LeafPathsPrefixFree(t.fields[p[0]].typ, p[1..], q[1..]);
      assert |p| <= |q| ==> q[..|p|][1..] == q[1..][..|p| - 1];
    } else {
      assert |p| <= |q| ==> q[..|p|][0] == q[0];
      assert |q| == 1 ==> q == [q[0]];
    }
  }
}

/** compileStructSpec: the tree walk that decides which struct field a Redis hash name stands for. */
module StructSpec {
  import opened Texts
  import opened GoTypes

  /** The depth a name has before it was ever seen (1 << 30). */
  const NO_DEPTH: nat := 0x4000_0000

  function Depth(fs: FieldSpec): int { |fs.index| - 1 }

  /** The leaves below `t` in depth-first field order, starting at field `from`. */
  function Leaves(t: Type, prefix: seq<nat>, from: nat): (ls: seq<FieldSpec>)
    requires t.Struct? && from <= |t.fields|
    decreases t, |t.fields| - from
  {
    if from == |t.fields| then []
    else
      var f := t.fields[from];
      var role := RoleOf(f);
      var here :=
        if role.Embedded? then Leaves(f.typ, prefix + [from], 0)
        else if role.Leaf? then [FieldSpec(role.name, prefix + [from], role.omitEmpty)]
        else [];
      here + Leaves(t, prefix, from + 1)
  }

  /** The tables the walk keeps: depth by name, winner by name, and the ordered list. */
  datatype Tables = Tables(depth: map<string, nat>, m: map<string, FieldSpec>, l: seq<FieldSpec>)

  const EMPTY := Tables(map[], map[], [])

  function Without(l: seq<FieldSpec>, name: string): seq<FieldSpec> {
    if l == [] then []
    else
      var front := Without(l[..|l| - 1], name);
      if l[|l| - 1].name == name then front else front + [l[|l| - 1]]
  }

  function Visit(s: Tables, fs: FieldSpec): Tables
    requires |fs.index| > 0
  {
    var d := if fs.name in s.depth then s.depth[fs.name] else NO_DEPTH;
    if Depth(fs) == d then s.(m := s.m - {fs.name}, l := Without(s.l, fs.name))
    else if Depth(fs) < d then
      Tables(s.depth[fs.name := Depth(fs)], s.m[fs.name := fs], s.l + [fs])
    else s
  }

  predicate Indexed(ls: seq<FieldSpec>) {
    forall k :: 0 <= k < |ls| ==> |ls[k].index| > 0
  }

  function VisitAll(s: Tables, ls: seq<FieldSpec>): Tables
    requires Indexed(ls)
  {
    if ls == [] then s else Visit(VisitAll(s, ls[..|ls| - 1]), ls[|ls| - 1])
  }

  lemma {:induction false} VisitAllAppend(s: Tables, a: seq<FieldSpec>, b: seq<FieldSpec>)
    requires Indexed(a) && Indexed(b)
    ensures Indexed(a + b) && VisitAll(s, a + b) == VisitAll(VisitAll(s, a), b)
    decreases |b|
  {
    if b == [] {
      assert a + b == a;
    } else {
      VisitAllAppend(s, a, b[..|b| - 1]);
      assert (a + b)[..|a + b| - 1] == a + b[..|b| - 1];
    }
  }

  // ------------------------------------------------------------------------------------------
  // The depth-first leaf list against paths.

  ghost function SpecAt(t: Type, p: seq<nat>): FieldSpec
    requires RoleAt(t, p).Leaf?
  {
    FieldSpec(RoleAt(t, p).name, p, RoleAt(t, p).omitEmpty)
  }

  lemma {:induction false} LeavesSound(t: Type, prefix: seq<nat>, from: nat, k: nat)
    requires t.Struct? && from <= |t.fields| && k < |Leaves(t, prefix, from)|
    ensures var fs := Leaves(t, prefix, from)[k];
            && |fs.index| > |prefix| && fs.index[..|prefix|] == prefix
            && from <= fs.index[|prefix|] < |t.fields|
            && RoleAt(t, fs.index[|prefix|..]) == Leaf(fs.name, fs.omitEmpty)
    decreases t, |t.fields| - from
  {
    var f, role := t.fields[from], RoleOf(t.fields[from]);
    var fs := Leaves(t, prefix, from)[k];
    if role.Embedded? {
      var inner := Leaves(f.typ, prefix + [from], 0);
      if k < |inner| {
        LeavesSound(f.typ, prefix + [from], 0, k);
        assert fs == inner[k];
        assert fs.index[|prefix|] == fs.index[..|prefix| + 1][|prefix|] == from;
        assert fs.index[..|prefix|] == fs.index[..|prefix| + 1][..|prefix|] == prefix;
        assert fs.index[|prefix|..][1..] == fs.index[|prefix| + 1..];
      } else {
        LeavesSound(t, prefix, from + 1, k - |inner|);
      }
    } else if role.Leaf? {
      if k == 0 {
        assert fs.index[|prefix|..] == [from];
      } else {
        LeavesSound(t, prefix, from + 1, k - 1);
      }
    } else {
      LeavesSound(t, prefix, from + 1, k);
    }
  }

  lemma LeavesIndexed(t: Type, prefix: seq<nat>, from: nat)
    requires t.Struct? && from <= |t.fields|
    ensures Indexed(Leaves(t, prefix, from))
  {
    forall k | 0 <= k < |Leaves(t, prefix, from)| ensures |Leaves(t, prefix, from)[k].index| > 0 {
      LeavesSound(t, prefix, from, k);
    }
  }

  lemma {:induction false} LeavesComplete(t: Type, prefix: seq<nat>, from: nat, p: seq<nat>) returns (k: nat)
    requires t.Struct? && from <= |t.fields| && RoleAt(t, p).Leaf? && p[0] >= from
    ensures k < |Leaves(t, prefix, from)| && Leaves(t, prefix, from)[k].index == prefix + p
    decreases t, |t.fields| - from
  {
    var f, role := t.fields[from], RoleOf(t.fields[from]);
    if p[0] == from {
      if |p| == 1 {
        assert p == [from];
        k := 0;
      } else {
        k := LeavesComplete(f.typ, prefix + [from], 0, p[1..]);
        assert prefix + [from] + p[1..] == prefix + p;
      }
    } else {
      k := LeavesComplete(t, prefix, from + 1, p);
      k := k + if role.Embedded? then |Leaves(f.typ, prefix + [from], 0)| else if role.Leaf? then 1 else 0;
    }
  }

  /** `p` comes before `q` in depth-first order. */
  ghost predicate Before(p: seq<nat>, q: seq<nat>) {
    exists i :: 0 <= i < |p| && i < |q| && p[..i] == q[..i] && p[i] < q[i]
  }

  lemma FirstDifference(p: seq<nat>, q: seq<nat>, i: nat)
    requires i < |p| && i < |q| && p[..i] == q[..i] && p[i] < q[i]
    ensures Before(p, q)
  {
  }

  /** The leaves that the first field contributes. */
  lemma FirstFieldLeaf(t: Type, prefix: seq<nat>, from: nat, a: nat)
    requires t.Struct? && from < |t.fields|
    requires var role := RoleOf(t.fields[from]);
             if role.Embedded? then a < |Leaves(t.fields[from].typ, prefix + [from], 0)| else role.Leaf? && a == 0
    ensures var p := Leaves(t, prefix, from)[a].index;
            |p| > |prefix| && p[..|prefix|] == prefix && p[|prefix|] == from
  {
    var f, p := t.fields[from], Leaves(t, prefix, from)[a].index;
    if RoleOf(f).Embedded? {
      LeavesSound(f.typ, prefix + [from], 0, a);
      assert p == Leaves(f.typ, prefix + [from], 0)[a].index;
      assert p[|prefix|] == p[..|prefix| + 1][|prefix|];
      assert p[..|prefix|] == p[..|prefix| + 1][..|prefix|];
    }
  }

  lemma {:induction false} LeavesInOrder(t: Type, prefix: seq<nat>, from: nat, a: nat, b: nat)
    requires t.Struct? && from <= |t.fields| && a < b < |Leaves(t, prefix, from)|
    ensures Before(Leaves(t, prefix, from)[a].index, Leaves(t, prefix, from)[b].index)
    decreases t, |t.fields| - from
  {
    var f, role := t.fields[from], RoleOf(t.fields[from]);
    var here :=
      if role.Embedded? then Leaves(f.typ, prefix + [from], 0)
      else if role.Leaf? then [FieldSpec(role.name, prefix + [from], role.omitEmpty)]
      else [];
    var ls := Leaves(t, prefix, from);
    if b < |here| {
      LeavesInOrder(f.typ, prefix + [from], 0, a, b);
    } else if a >= |here| {
      LeavesInOrder(t, prefix, from + 1, a - |here|, b - |here|);
    } else {
      LeavesSound(t, prefix, from + 1, b - |here|);
      assert ls[b] == Leaves(t, prefix, from + 1)[b - |here|];
      FirstFieldLeaf(t, prefix, from, a);
      FirstDifference(ls[a].index, ls[b].index, |prefix|);
    }
  }

  // ------------------------------------------------------------------------------------------
  // The winner of a name, first over leaf lists, then over types.

  predicate SameName(ls: seq<FieldSpec>, name: string, k: int) {
    0 <= k < |ls| && ls[k].name == name
  }

  /** Position k holds the one leaf of that name at the least depth. */
  ghost predicate Winner(ls: seq<FieldSpec>, name: string, k: int) {
    && SameName(ls, name, k) && Depth(ls[k]) < NO_DEPTH
    && forall j :: SameName(ls, name, j) && j != k ==> Depth(ls[k]) < Depth(ls[j])
  }

  ghost predicate DepthIsLeast(s: Tables, ls: seq<FieldSpec>, name: string) {
    && (name in s.depth <==> exists k :: SameName(ls, name, k) && Depth(ls[k]) < NO_DEPTH)
    && (name in s.depth ==>
          && s.depth[name] < NO_DEPTH
          && (exists k :: SameName(ls, name, k) && Depth(ls[k]) == s.depth[name])
          && (forall k :: SameName(ls, name, k) ==> s.depth[name] <= Depth(ls[k])))
  }

  lemma {:induction false} VisitKeepsDepth(ls: seq<FieldSpec>, name: string)
    requires Indexed(ls)
    ensures DepthIsLeast(VisitAll(EMPTY, ls), ls, name)
    decreases |ls|
  {
    if ls != [] {
      var n := |ls| - 1;
      var init, x := ls[..n], ls[n];
      VisitKeepsDepth(init, name);
      var s := VisitAll(EMPTY, init);
      assert forall k :: SameName(init, name, k) <==> SameName(ls, name, k) && k < n;
      assert forall k :: SameName(init, name, k) ==> init[k] == ls[k];
      if x.name == name {
        assert SameName(ls, name, n);
      }
      if name in s.depth {
        var k :| SameName(init, name, k) && Depth(init[k]) == s.depth[name];
        assert SameName(ls, name, k) && Depth(ls[k]) == s.depth[name];
      }
    }
  }

  ghost predicate TableHasWinner(s: Tables, ls: seq<FieldSpec>, name: string) {
    && (forall k :: Winner(ls, name, k) ==> name in s.m && s.m[name] == ls[k])
    && (name in s.m ==> exists k :: Winner(ls, name, k))
  }

  lemma OtherNameKeepsWinner(init: seq<FieldSpec>, x: FieldSpec, name: string)
    requires x.name != name || (exists k :: SameName(init, name, k) && Depth(init[k]) < Depth(x))
    ensures forall k :: Winner(init + [x], name, k) <==> Winner(init, name, k)
  {
    var ls := init + [x];
    forall k ensures Winner(ls, name, k) <==> Winner(init, name, k) {
      assert forall j :: SameName(init, name, j) ==> SameName(ls, name, j) && ls[j] == init[j];
      assert forall j :: SameName(ls, name, j) && j < |init| ==> SameName(init, name, j);
    }
  }

  lemma ShallowerLeafWins(s: Tables, init: seq<FieldSpec>, x: FieldSpec)
    requires DepthIsLeast(s, init, x.name)
    requires Depth(x) < if x.name in s.depth then s.depth[x.name] else NO_DEPTH
    ensures forall k :: Winner(init + [x], x.name, k) <==> k == |init|
  {
    var ls := init + [x];
    assert SameName(ls, x.name, |init|);
    forall k ensures Winner(ls, x.name, k) <==> k == |init| {
      assert forall j :: SameName(ls, x.name, j) && j < |init| ==> SameName(init, x.name, j) && ls[j] == init[j];
    }
  }

  lemma TiedLeafErases(s: Tables, init: seq<FieldSpec>, x: FieldSpec)
    requires DepthIsLeast(s, init, x.name)
    requires Depth(x) >= if x.name in s.depth then s.depth[x.name] else NO_DEPTH
    requires x.name in s.depth ==> Depth(x) == s.depth[x.name]
    ensures forall k :: !Winner(init + [x], x.name, k)
  {
    var ls := init + [x];
    assert SameName(ls, x.name, |init|);
    assert forall j :: SameName(init, x.name, j) ==> SameName(ls, x.name, j) && ls[j] == init[j];
    assert forall j :: SameName(ls, x.name, j) && j < |init| ==> SameName(init, x.name, j);
  }

  lemma {:induction false} TablesHoldWinners(ls: seq<FieldSpec>, name: string)
    requires Indexed(ls)
    ensures TableHasWinner(VisitAll(EMPTY, ls), ls, name)
    decreases |ls|
  {
    if ls != [] {
      var n := |ls| - 1;
      var init, x := ls[..n], ls[n];
      assert ls == init + [x];
      var s := VisitAll(EMPTY, init);
      TablesHoldWinners(init, name);
      VisitKeepsDepth(init, name);
      if x.name != name {
        OtherNameKeepsWinner(init, x, name);
        assert forall k :: Winner(init, name, k) ==> ls[k] == init[k];
      } else if Depth(x) < if name in s.depth then s.depth[name] else NO_DEPTH {
        ShallowerLeafWins(s, init, x);
        assert Winner(ls, name, n);
      } else if name in s.depth && Depth(x) > s.depth[name] {
        OtherNameKeepsWinner(init, x, name);
        assert forall k :: Winner(init, name, k) ==> ls[k] == init[k];
      } else {
        TiedLeafErases(s, init, x);
      }
    }
  }

  // ------------------------------------------------------------------------------------------
  // The ordered list, position by position.

  /** Leaf j arrives at the depth its name already had. */
  ghost predicate TieAt(ls: seq<FieldSpec>, j: int) {
    && 0 <= j < |ls|
    && (exists i :: SameName(ls, ls[j].name, i) && i < j && Depth(ls[i]) == Depth(ls[j]))
    && (forall i :: SameName(ls, ls[j].name, i) && i < j ==> Depth(ls[j]) <= Depth(ls[i]))
  }

  /** Leaf k stays listed: shallower than every earlier leaf of its name, and no tie came later. */
  ghost predicate Survives(ls: seq<FieldSpec>, k: int) {
    && 0 <= k < |ls| && Depth(ls[k]) < NO_DEPTH
    && (forall j :: SameName(ls, ls[k].name, j) && j < k ==> Depth(ls[k]) < Depth(ls[j]))
    && (forall j :: SameName(ls, ls[k].name, j) && k < j ==> !TieAt(ls, j))
  }

  ghost function Survivors(ls: seq<FieldSpec>, n: nat): seq<FieldSpec>
    requires n <= |ls|
  {
    if n == 0 then []
    else Survivors(ls, n - 1) + if Survives(ls, n - 1) then [ls[n - 1]] else []
  }

  lemma TieAtPrefix(init: seq<FieldSpec>, x: FieldSpec, j: int)
    requires j < |init|
    ensures TieAt(init + [x], j) <==> TieAt(init, j)
  {
    if 0 <= j {
      var ls := init + [x];
      assert forall i :: i < j ==> (SameName(ls, ls[j].name, i) <==> SameName(init, init[j].name, i));
      assert forall i :: 0 <= i < j ==> ls[i] == init[i];
    }
  }

  lemma SurvivesAfter(init: seq<FieldSpec>, x: FieldSpec, k: int)
    requires k < |init|
    ensures Survives(init + [x], k) <==>
      Survives(init, k) && !(init[k].name == x.name && TieAt(init + [x], |init|))
  {
    if 0 <= k {
      var ls := init + [x];
      assert forall i :: i < |init| ==> (SameName(ls, ls[k].name, i) <==> SameName(init, init[k].name, i));
      assert forall i :: 0 <= i < |init| ==> ls[i] == init[i];
      forall j | j < |init| ensures TieAt(ls, j) <==> TieAt(init, j) {
        TieAtPrefix(init, x, j);
      }
      assert SameName(ls, x.name, |init|);
      if Survives(init, k) && !(init[k].name == x.name && TieAt(ls, |init|)) {
        forall j | SameName(ls, ls[k].name, j) && k < j ensures !TieAt(ls, j) {
          assert j < |init| ==> SameName(init, init[k].name, j);
        }
      }
      if Survives(ls, k) {
        forall j | SameName(init, init[k].name, j) && k < j ensures !TieAt(init, j) {
          assert SameName(ls, ls[k].name, j);
        }
      }
    }
  }

  lemma {:induction false} SurvivorsAfter(init: seq<FieldSpec>, x: FieldSpec, n: nat)
    requires n <= |init|
    ensures Survivors(init + [x], n) ==
      if TieAt(init + [x], |init|) then Without(Survivors(init, n), x.name) else Survivors(init, n)
  {
    if n > 0 {
      SurvivorsAfter(init, x, n - 1);
      SurvivesAfter(init, x, n - 1);
      var kept := Survivors(init, n - 1);
      if Survives(init, n - 1) {
        WithoutOneMore(kept, init[n - 1], x.name);
      } else {
        assert kept + [] == kept;
      }
    }
  }

  lemma WithoutOneMore(l: seq<FieldSpec>, fs: FieldSpec, name: string)
    ensures Without(l + [fs], name) == Without(l, name) + if fs.name == name then [] else [fs]
  {
    assert (l + [fs])[..|l|] == l;
  }

  lemma VisitTiesExactly(s: Tables, init: seq<FieldSpec>, x: FieldSpec)
    requires DepthIsLeast(s, init, x.name)
    ensures x.name in s.depth ==> (TieAt(init + [x], |init|) <==> Depth(x) == s.depth[x.name])
    ensures Survives(init + [x], |init|) <==> Depth(x) < if x.name in s.depth then s.depth[x.name] else NO_DEPTH
  {
    var ls := init + [x];
    assert forall i :: i < |init| ==> (SameName(ls, x.name, i) <==> SameName(init, x.name, i));
    assert forall i :: 0 <= i < |init| ==> ls[i] == init[i];
    if x.name in s.depth {
      var w :| SameName(init, x.name, w) && Depth(init[w]) == s.depth[x.name];
      assert SameName(ls, x.name, w);
    } else {
      assert forall i :: SameName(init, x.name, i) ==> Depth(init[i]) >= NO_DEPTH;
    }
  }

  lemma {:induction false} NoSurvivorOfName(ls: seq<FieldSpec>, n: nat, name: string)
    requires n <= |ls| && forall k :: SameName(ls, name, k) && k < n ==> !Survives(ls, k)
    ensures Without(Survivors(ls, n), name) == Survivors(ls, n)
  {
    if n > 0 {
      NoSurvivorOfName(ls, n - 1, name);
      if Survives(ls, n - 1) {
        assert !SameName(ls, name, n - 1);
        assert (Survivors(ls, n - 1) + [ls[n - 1]])[..|Survivors(ls, n - 1)|] == Survivors(ls, n - 1);
      } else {
        assert Survivors(ls, n - 1) + [] == Survivors(ls, n - 1);
      }
    }
  }

  lemma {:induction false} ListIsSurvivors(ls: seq<FieldSpec>)
    requires Indexed(ls)
    ensures VisitAll(EMPTY, ls).l == Survivors(ls, |ls|)
    decreases |ls|
  {
    if ls != [] {
      var n := |ls| - 1;
      var init, x := ls[..n], ls[n];
      assert ls == init + [x];
      var s := VisitAll(EMPTY, init);
      ListIsSurvivors(init);
      VisitKeepsDepth(init, x.name);
      VisitTiesExactly(s, init, x);
      SurvivorsAfter(init, x, n);
      if x.name !in s.depth {
        assert forall k :: SameName(init, x.name, k) ==> !Survives(init, k);
        NoSurvivorOfName(init, n, x.name);
      }
    }
  }

  // ------------------------------------------------------------------------------------------
  // The list against the name table.

  /** The entries of one name get strictly shallower, and only the last of them is in the table. */
  ghost predicate ListFollowsTable(s: Tables) {
    && (forall a :: 0 <= a < |s.l| ==>
          s.l[a].name in s.m && s.l[a].name in s.depth && s.depth[s.l[a].name] <= Depth(s.l[a]))
    && (forall a, b :: 0 <= a < b < |s.l| && s.l[a].name == s.l[b].name ==> Depth(s.l[b]) < Depth(s.l[a]))
    && (forall n :: n in s.m ==>
          s.m[n].name == n && s.m[n] in s.l && n in s.depth && Depth(s.m[n]) == s.depth[n])
  }

  lemma {:induction false} WithoutPair(l: seq<FieldSpec>, name: string, a: nat, b: nat) returns (i: nat, j: nat)
    requires a < b < |Without(l, name)|
    ensures i < j < |l| && l[i] == Without(l, name)[a] && l[j] == Without(l, name)[b]
  {
    var n := |l| - 1;
    if l[n].name != name && b == |Without(l, name)| - 1 {
      i := WithoutMember(l[..n], name, a);
      j := n;
    } else {
      i, j := WithoutPair(l[..n], name, a, b);
    }
  }

  lemma {:induction false} WithoutMember(l: seq<FieldSpec>, name: string, a: nat) returns (i: nat)
    requires a < |Without(l, name)|
    ensures i < |l| && l[i] == Without(l, name)[a] && l[i].name != name
  {
    var n := |l| - 1;
    if l[n].name != name && a == |Without(l, name)| - 1 {
      i := n;
    } else {
      i := WithoutMember(l[..n], name, a);
    }
  }

  lemma {:induction false} WithoutKeeps(l: seq<FieldSpec>, name: string, fs: FieldSpec)
    requires fs in l && fs.name != name
    ensures fs in Without(l, name)
  {
    var n := |l| - 1;
    var front := Without(l[..n], name);
    if l[n] == fs {
      assert (front + [fs])[|front|] == fs;
    } else {
      WithoutKeeps(l[..n], name, fs);
    }
  }

  lemma EraseKeepsListAgainstTable(s: Tables, name: string)
    requires ListFollowsTable(s)
    ensures ListFollowsTable(s.(m := s.m - {name}, l := Without(s.l, name)))
  {
    var l := Without(s.l, name);
    forall a | 0 <= a < |l| ensures l[a] in s.l && l[a].name != name {
      var i := WithoutMember(s.l, name, a);
    }
    forall a, b | 0 <= a < b < |l| && l[a].name == l[b].name ensures Depth(l[b]) < Depth(l[a]) {
      var i, j := WithoutPair(s.l, name, a, b);
    }
    forall n | n in s.m && n != name ensures s.m[n] in l {
      WithoutKeeps(s.l, name, s.m[n]);
    }
  }

  lemma AppendKeepsListAgainstTable(s: Tables, fs: FieldSpec)
    requires ListFollowsTable(s) && (fs.name in s.depth ==> Depth(fs) < s.depth[fs.name]) && |fs.index| > 0
    ensures ListFollowsTable(Tables(s.depth[fs.name := Depth(fs)], s.m[fs.name := fs], s.l + [fs]))
  {
    var r := Tables(s.depth[fs.name := Depth(fs)], s.m[fs.name := fs], s.l + [fs]);
    assert r.l[|s.l|] == fs;
    assert forall x :: x in s.l ==> x in r.l;
    forall a, b | 0 <= a < b < |r.l| && r.l[a].name == r.l[b].name ensures Depth(r.l[b]) < Depth(r.l[a]) {
      assert b < |s.l| ==> s.l[a] == r.l[a] && s.l[b] == r.l[b];
    }
  }

  lemma VisitKeepsListAgainstTable(s: Tables, fs: FieldSpec)
    requires ListFollowsTable(s) && |fs.index| > 0
    ensures ListFollowsTable(Visit(s, fs))
  {
    var d := if fs.name in s.depth then s.depth[fs.name] else NO_DEPTH;
    if Depth(fs) == d {
      EraseKeepsListAgainstTable(s, fs.name);
    } else if Depth(fs) < d {
      AppendKeepsListAgainstTable(s, fs);
    }
  }

  lemma {:induction false} ListAgainstTable(ls: seq<FieldSpec>)
    requires Indexed(ls)
    ensures ListFollowsTable(VisitAll(EMPTY, ls))
    decreases |ls|
  {
    if ls != [] {
      ListAgainstTable(ls[..|ls| - 1]);
      VisitKeepsListAgainstTable(VisitAll(EMPTY, ls[..|ls| - 1]), ls[|ls| - 1]);
    }
  }

  // ------------------------------------------------------------------------------------------
  // Whole types: what a compiled type holds.

  function Compiled(t: Type): Tables
    requires t.Struct?
  {
    LeavesIndexed(t, [], 0);
    VisitAll(EMPTY, Leaves(t, [], 0))
  }

  /** The Go selector rule on tag names: `p` is the only shallowest path to a leaf of this name. */
  ghost predicate Selected(t: Type, name: string, p: seq<nat>) {
    && RoleAt(t, p).Leaf? && RoleAt(t, p).name == name && |p| <= 0x4000_0000
    && (forall q :: RoleAt(t, q).Leaf? && RoleAt(t, q).name == name && q != p ==> |p| < |q|)
  }

  lemma WinnerIsSelected(t: Type, name: string, k: int)
    requires t.Struct? && Winner(Leaves(t, [], 0), name, k)
    ensures Selected(t, name, Leaves(t, [], 0)[k].index)
    ensures Leaves(t, [], 0)[k] == SpecAt(t, Leaves(t, [], 0)[k].index)
  {
    var ls := Leaves(t, [], 0);
    LeavesSound(t, [], 0, k);
    var p := ls[k].index;
    assert p[0..] == p;
    forall q | RoleAt(t, q).Leaf? && RoleAt(t, q).name == name && q != p ensures |p| < |q| {
      var j := LeavesComplete(t, [], 0, q);
      assert [] + q == q;
      LeavesSound(t, [], 0, j);
      assert q[0..] == q;
      assert SameName(ls, name, j);
    }
  }

  lemma SelectedIsWinner(t: Type, name: string, p: seq<nat>) returns (k: nat)
    requires t.Struct? && Selected(t, name, p)
    ensures Winner(Leaves(t, [], 0), name, k) && Leaves(t, [], 0)[k] == SpecAt(t, p)
  {
    var ls := Leaves(t, [], 0);
    k := LeavesComplete(t, [], 0, p);
    assert [] + p == p;
    LeavesSound(t, [], 0, k);
    assert p[0..] == p;
    forall j | SameName(ls, name, j) && j != k ensures Depth(ls[k]) < Depth(ls[j]) {
      LeavesSound(t, [], 0, j);
      assert ls[j].index[0..] == ls[j].index;
      LeavesDistinct(t, j, k);
    }
  }

  lemma LeavesDistinct(t: Type, a: nat, b: nat)
    requires t.Struct? && a < |Leaves(t, [], 0)| && b < |Leaves(t, [], 0)| && a != b
    ensures Leaves(t, [], 0)[a].index != Leaves(t, [], 0)[b].index
  {
    LeavesInOrder(t, [], 0, if a < b then a else b, if a < b then b else a);
  }

  /** A name stands for a field exactly when one leaf of that name is shallower than all others. */
  lemma SelectorRule(t: Type, name: string)
    requires t.Struct?
    ensures name in Compiled(t).m <==> exists p :: Selected(t, name, p)
    ensures forall p :: Selected(t, name, p) ==> name in Compiled(t).m && Compiled(t).m[name] == SpecAt(t, p)
  {
    var ls := Leaves(t, [], 0);
    LeavesIndexed(t, [], 0);
    TablesHoldWinners(ls, name);
    forall p | Selected(t, name, p)
      ensures name in Compiled(t).m && Compiled(t).m[name] == SpecAt(t, p)
    {
      var k := SelectedIsWinner(t, name, p);
    }
    if name in Compiled(t).m {
      var k :| Winner(ls, name, k);
      WinnerIsSelected(t, name, k);
    }
  }

  /** A field of the struct itself that no other has the name of is what that name stands for, whatever
      the embedded structs have. */
  lemma TaggedFieldIsFound(t: Type, i: nat, name: string, k: nat)
    requires t.Struct? && i < |t.fields| && t.fields[i].pkgPath == "" && !t.fields[i].anonymous
    requires NoComma(name) && name != "-" && t.fields[i].tag == TagOf(name, k)
    requires var n := if name == "" then t.fields[i].name else name;
             forall j :: 0 <= j < |t.fields| && j != i ==>
               !(RoleOf(t.fields[j]).Leaf? && RoleOf(t.fields[j]).name == n)
    ensures var n := if name == "" then t.fields[i].name else name;
            n in Compiled(t).m && Compiled(t).m[n] == FieldSpec(n, [i], k > 0)
  {
    var n := if name == "" then t.fields[i].name else name;
    TaggedRole(t.fields[i], name, k);
    RoleOfPath(t, i, []);
    forall q | |q| == 1 && q != [i] ensures q == [q[0]] && q[0] != i {}
    assert Selected(t, n, [i]);
    SelectorRule(t, n);
  }

  /** Listed entries are leaves of the type at their own paths, in depth-first order, and no
      stored path is a prefix of another. */
  lemma ListedPathsReachTheirLeaves(t: Type, a: nat, b: nat)
    requires t.Struct? && a < b < |Compiled(t).l|
    ensures var x, y := Compiled(t).l[a], Compiled(t).l[b];
            && RoleAt(t, x.index).Leaf? && x == SpecAt(t, x.index)
            && RoleAt(t, y.index).Leaf? && y == SpecAt(t, y.index)
            && Before(x.index, y.index)
            && !IsPrefix(x.index, y.index) && !IsPrefix(y.index, x.index)
  {
    var ls := Leaves(t, [], 0);
    LeavesIndexed(t, [], 0);
    ListIsSurvivors(ls);
    var i, j := SurvivorsInOrder(ls, |ls|, a, b);
    LeavesSound(t, [], 0, i);
    LeavesSound(t, [], 0, j);
    assert ls[i].index[0..] == ls[i].index && ls[j].index[0..] == ls[j].index;
    LeavesInOrder(t, [], 0, i, j);
    LeavesDistinct(t, i, j);
    LeafPathsPrefixFree(t, ls[i].index, ls[j].index);
    LeafPathsPrefixFree(t, ls[j].index, ls[i].index);
  }

  lemma {:induction false} SurvivorsInOrder(ls: seq<FieldSpec>, n: nat, a: nat, b: nat) returns (i: nat, j: nat)
    requires n <= |ls| && a < b < |Survivors(ls, n)|
    ensures i < j < n && Survives(ls, i) && Survives(ls, j)
    ensures Survivors(ls, n)[a] == ls[i] && Survivors(ls, n)[b] == ls[j]
    decreases n
  {
    if b < |Survivors(ls, n - 1)| {
      i, j := SurvivorsInOrder(ls, n - 1, a, b);
    } else {
      i := SurvivorAt(ls, n - 1, a);
      j := n - 1;
    }
  }

  lemma {:induction false} SurvivorAt(ls: seq<FieldSpec>, n: nat, a: nat) returns (i: nat)
    requires n <= |ls| && a < |Survivors(ls, n)|
    ensures i < n && Survives(ls, i) && Survivors(ls, n)[a] == ls[i]
    decreases n
  {
    if a < |Survivors(ls, n - 1)| {
      i := SurvivorAt(ls, n - 1, a);
    } else {
      i := n - 1;
    }
  }

  lemma ListedEntryIsLeaf(t: Type, a: nat)
    requires t.Struct? && a < |Compiled(t).l|
    ensures var x := Compiled(t).l[a]; RoleAt(t, x.index).Leaf? && x == SpecAt(t, x.index) && x.name in Compiled(t).m
  {
    var ls := Leaves(t, [], 0);
    LeavesIndexed(t, [], 0);
    ListIsSurvivors(ls);
    ListAgainstTable(ls);
    var i := SurvivorAt(ls, |ls|, a);
    LeavesSound(t, [], 0, i);
    assert ls[i].index[0..] == ls[i].index;
  }
}

/** The order in which a struct declares its fields does not decide which names it has. */
module FieldOrder {
  import opened GoTypes
  import opened StructSpec

  /** How often each name occurs at each depth, over the leaves of a list of fields. */
  ghost function ListShape(gs: seq<Field>, d: nat): multiset<(string, int)>
    decreases gs
  {
    if gs == [] then multiset{} else FieldShape(gs[0], d) + ListShape(gs[1..], d)
  }

  ghost function FieldShape(f: Field, d: nat): multiset<(string, int)>
    decreases f
  {
    if RoleOf(f).Embedded? then ListShape(f.typ.fields, d + 1)
    else if RoleOf(f).Leaf? then multiset{(RoleOf(f).name, d)}
    else multiset{}
  }

  ghost predicate ListBad(gs: seq<Field>)
    decreases gs
  {
    gs != [] && (FieldBad(gs[0]) || ListBad(gs[1..]))
  }

  ghost predicate FieldBad(f: Field)
    decreases f
  {
    RoleOf(f).BadTag? || (RoleOf(f).Embedded? && ListBad(f.typ.fields))
  }

  /** The same fields in another order, at every level of embedding. */
  ghost predicate Reordered(gs: seq<Field>, hs: seq<Field>)
    decreases gs
  {
    if gs == [] then hs == []
    else exists j :: 0 <= j < |hs| && SameField(gs[0], hs[j]) && Reordered(gs[1..], hs[..j] + hs[j + 1..])
  }

  ghost predicate SameField(f: Field, g: Field)
    decreases f
  {
    && g.name == f.name && g.pkgPath == f.pkgPath && g.anonymous == f.anonymous && g.tag == f.tag
    && if RoleOf(f).Embedded? then g.typ.Struct? && Reordered(f.typ.fields, g.typ.fields) else g.typ == f.typ
  }

  lemma {:induction false} ShapeWithout(hs: seq<Field>, j: nat, d: nat)
    requires j < |hs|
    ensures ListShape(hs, d) == FieldShape(hs[j], d) + ListShape(hs[..j] + hs[j + 1..], d)
    ensures ListBad(hs) <==> FieldBad(hs[j]) || ListBad(hs[..j] + hs[j + 1..])
    decreases j
  {
    var rest := hs[..j] + hs[j + 1..];
    if j == 0 {
      assert rest == hs[1..];
    } else {
      ShapeWithout(hs[1..], j - 1, d);
      assert hs[1..][..j - 1] + hs[1..][j..] == rest[1..];
      assert rest[0] == hs[0];
    }
  }

  lemma {:induction false} ReorderedShape(gs: seq<Field>, hs: seq<Field>, d: nat)
    requires Reordered(gs, hs)
    ensures ListShape(gs, d) == ListShape(hs, d)
    ensures ListBad(gs) <==> ListBad(hs)
    decreases gs
  {
    if gs != [] {
      var j :| 0 <= j < |hs| && SameField(gs[0], hs[j]) && Reordered(gs[1..], hs[..j] + hs[j + 1..]);
      ShapeWithout(hs, j, d);
      ReorderedShape(gs[1..], hs[..j] + hs[j + 1..], d);
      if RoleOf(gs[0]).Embedded? {
        ReorderedShape(gs[0].typ.fields, hs[j].typ.fields, d + 1);
      }
    }
  }

  /** The same counts, taken from a leaf list. */
  ghost function LeafShape(ls: seq<FieldSpec>): multiset<(string, int)> {
    if ls == [] then multiset{} else LeafShape(ls[..|ls| - 1]) + multiset{(ls[|ls| - 1].name, Depth(ls[|ls| - 1]))}
  }

  lemma {:induction false} LeafShapeAppend(a: seq<FieldSpec>, b: seq<FieldSpec>)
    ensures LeafShape(a + b) == LeafShape(a) + LeafShape(b)
    decreases |b|
  {
    if b == [] {
      assert a + b == a;
    } else {
      var x := b[|b| - 1];
      LeafShapeAppend(a, b[..|b| - 1]);
      assert (a + b)[..|a + b| - 1] == a + b[..|b| - 1] && (a + b)[|a + b| - 1] == x;
      assert LeafShape(a + b) == LeafShape(a) + LeafShape(b[..|b| - 1]) + multiset{(x.name, Depth(x))};
    }
  }

  /** The shape of an embedded struct's leaves together with those of the fields after it. */
  lemma ShapeFromEmbedded(t: Type, prefix: seq<nat>, from: nat, inner: seq<FieldSpec>, rest: seq<FieldSpec>)
    requires t.Struct? && from < |t.fields| && RoleOf(t.fields[from]).Embedded?
    requires inner == Leaves(t.fields[from].typ, prefix + [from], 0) && rest == Leaves(t, prefix, from + 1)
    ensures LeafShape(Leaves(t, prefix, from)) == LeafShape(inner) + LeafShape(rest)
  {
    LeafShapeAppend(inner, rest);
  }

  /** The same for a field that is not embedded. */
  lemma ShapeFromOther(t: Type, prefix: seq<nat>, from: nat, rest: seq<FieldSpec>)
    requires t.Struct? && from < |t.fields| && !RoleOf(t.fields[from]).Embedded?
    requires rest == Leaves(t, prefix, from + 1)
    ensures LeafShape(Leaves(t, prefix, from)) == FieldShape(t.fields[from], |prefix|) + LeafShape(rest)
  {
    var role := RoleOf(t.fields[from]);
    if role.Leaf? {
      OneLeafShape(FieldSpec(role.name, prefix + [from], role.omitEmpty), rest);
    } else {
      assert [] + rest == rest;
    }
  }

  lemma ShapeFromField(t: Type, prefix: seq<nat>, from: nat)
    requires t.Struct? && from < |t.fields|
    requires LeafShape(Leaves(t, prefix, from + 1)) == ListShape(t.fields[from + 1..], |prefix|)
    requires RoleOf(t.fields[from]).Embedded? ==>
               LeafShape(Leaves(t.fields[from].typ, prefix + [from], 0))
               == ListShape(t.fields[from].typ.fields, |prefix| + 1)
    ensures LeafShape(Leaves(t, prefix, from)) == ListShape(t.fields[from..], |prefix|)
  {
    var f, rest := t.fields[from], Leaves(t, prefix, from + 1);
    assert t.fields[from..][0] == f && t.fields[from..][1..] == t.fields[from + 1..];
    if RoleOf(f).Embedded? {
      ShapeFromEmbedded(t, prefix, from, Leaves(f.typ, prefix + [from], 0), rest);
    } else {
      ShapeFromOther(t, prefix, from, rest);
    }
  }

  lemma OneLeafShape(x: FieldSpec, rest: seq<FieldSpec>)
    ensures LeafShape([x] + rest) == multiset{(x.name, Depth(x))} + LeafShape(rest)
  {
    LeafShapeAppend([x], rest);
    assert [x][..0] == [];
  }

  lemma {:induction false} LeavesShape(t: Type, prefix: seq<nat>, from: nat)
    requires t.Struct? && from <= |t.fields|
    ensures LeafShape(Leaves(t, prefix, from)) == ListShape(t.fields[from..], |prefix|)
    decreases t, |t.fields| - from
  {
    if from == |t.fields| {
      assert t.fields[from..] == [];
    } else {
      if RoleOf(t.fields[from]).Embedded? {
        var f := t.fields[from];
        LeavesShape(f.typ, prefix + [from], 0);
        assert f.typ.fields[0..] == f.typ.fields && |prefix + [from]| == |prefix| + 1;
      }
      LeavesShape(t, prefix, from + 1);
      ShapeFromField(t, prefix, from);
    }
  }

  lemma {:induction false} ShapeCounts(ls: seq<FieldSpec>, name: string, d: int)
    ensures (name, d) in LeafShape(ls) <==> exists k :: SameName(ls, name, k) && Depth(ls[k]) == d
    ensures LeafShape(ls)[(name, d)] <= 1 <==>
      forall a, b :: SameName(ls, name, a) && SameName(ls, name, b) && Depth(ls[a]) == d && Depth(ls[b]) == d ==> a == b
    decreases |ls|
  {
    if ls != [] {
      var n := |ls| - 1;
      var init := ls[..n];
      ShapeCounts(init, name, d);
      assert forall k :: SameName(ls, name, k) && k < n <==> SameName(init, name, k);
      assert forall k :: SameName(init, name, k) ==> ls[k] == init[k];
      if ls[n].name == name && Depth(ls[n]) == d {
        assert SameName(ls, name, n);
      }
    }
  }

  /** A name has a winner exactly when its least depth below NO_DEPTH occurs once. */
  ghost predicate WonByShape(shape: multiset<(string, int)>, name: string) {
    exists d :: d < NO_DEPTH && shape[(name, d)] == 1 && forall e | e < d :: (name, e) !in shape
  }

  lemma WinnerByShape(ls: seq<FieldSpec>, name: string)
    ensures (exists k :: Winner(ls, name, k)) <==> WonByShape(LeafShape(ls), name)
  {
    var shape := LeafShape(ls);
    if k :| Winner(ls, name, k) {
      var d := Depth(ls[k]);
      forall e | e <= d ensures (name, e) in shape <==> e == d {
        ShapeCounts(ls, name, e);
      }
      ShapeCounts(ls, name, d);
      assert shape[(name, d)] == 1;
    }
    if WonByShape(shape, name) {
      var d :| d < NO_DEPTH && shape[(name, d)] == 1 && forall e | e < d :: (name, e) !in shape;
      ShapeCounts(ls, name, d);
      assert (name, d) in shape;
      var k :| SameName(ls, name, k) && Depth(ls[k]) == d;
      forall j | SameName(ls, name, j) && j != k ensures d < Depth(ls[j]) {
        ShapeCounts(ls, name, Depth(ls[j]));
      }
      assert Winner(ls, name, k);
    }
  }

  lemma {:induction false} ListBadPath(t: Type, from: nat)
    requires t.Struct? && from <= |t.fields|
    ensures ListBad(t.fields[from..]) <==> exists p :: RoleAt(t, p).BadTag? && p[0] >= from
    decreases t, |t.fields| - from
  {
    if from < |t.fields| {
      var f := t.fields[from];
      ListBadPath(t, from + 1);
      assert t.fields[from..][1..] == t.fields[from + 1..];
      if RoleOf(f).Embedded? {
        ListBadPath(f.typ, 0);
        assert f.typ.fields[0..] == f.typ.fields;
        if ListBad(f.typ.fields) {
          var q :| RoleAt(f.typ, q).BadTag?;
          assert ([from] + q)[1..] == q;
          assert RoleAt(t, [from] + q).BadTag?;
        }
      } else if RoleOf(f).BadTag? {
        assert RoleAt(t, [from]).BadTag?;
      }
      if p :| RoleAt(t, p).BadTag? && p[0] >= from {
        if p[0] == from && |p| > 1 {
          assert RoleAt(f.typ, p[1..]).BadTag?;
        }
      }
    }
  }

  lemma BadTagIsListBad(t: Type)
    requires t.Struct?
    ensures HasBadTag(t) <==> ListBad(t.fields)
  {
    ListBadPath(t, 0);
    assert t.fields[0..] == t.fields;
  }

  /** Reordering fields, at any level, changes neither the key set nor whether compiling panics. */
  lemma ReorderingKeepsNames(t: Type, u: Type, name: string)
    requires t.Struct? && u.Struct? && Reordered(t.fields, u.fields)
    ensures name in Compiled(t).m <==> name in Compiled(u).m
    ensures HasBadTag(t) <==> HasBadTag(u)
  {
    var a, b := Leaves(t, [], 0), Leaves(u, [], 0);
    LeavesIndexed(t, [], 0);
    LeavesIndexed(u, [], 0);
    TablesHoldWinners(a, name);
    TablesHoldWinners(b, name);
    WinnerByShape(a, name);
    WinnerByShape(b, name);
    LeavesShape(t, [], 0);
    LeavesShape(u, [], 0);
    assert t.fields[0..] == t.fields && u.fields[0..] == u.fields;
    ReorderedShape(t.fields, u.fields, 0);
    BadTagIsListBad(t);
    BadTagIsListBad(u);
  }
}
