/** When the compiled list names a field twice, told from the struct type alone. */
module ShadowedNames {
  import opened Texts
  import opened GoTypes
  import opened StructSpec

  ghost predicate UniqueNames(l: seq<FieldSpec>) {
    forall a, b :: 0 <= a < b < |l| ==> l[a].name != l[b].name
  }

  // ------------------------------------------------------------------------------------------
  // Over leaf lists: two leaves of a name survive exactly when its winner comes after a leaf that
  // was the winner until then.

  ghost predicate BothSurvive(ls: seq<FieldSpec>, i: int, j: int) {
    i < j && Survives(ls, i) && Survives(ls, j) && ls[i].name == ls[j].name
  }

  ghost predicate WinsLate(ls: seq<FieldSpec>, name: string, j: int, k: int) {
    0 <= k < |ls| && Winner(ls, name, k) && Winner(ls[..k], name, j)
  }

  lemma SurvivesPrefix(ls: seq<FieldSpec>, n: nat, i: int)
    requires n <= |ls| && i < n && Survives(ls, i)
    ensures Survives(ls[..n], i)
  {
    var init := ls[..n];
    assert forall x, k :: SameName(init, x, k) <==> SameName(ls, x, k) && k < n;
    forall j | SameName(init, init[i].name, j) && i < j ensures !TieAt(init, j) {
      if TieAt(init, j) {
        var w :| SameName(init, init[j].name, w) && w < j && Depth(init[w]) == Depth(init[j]);
        assert SameName(ls, ls[j].name, w) && Depth(ls[w]) == Depth(ls[j]);
        assert TieAt(ls, j);
      }
    }
  }

  /** A name with a surviving leaf has a winner. */
  lemma SurvivorMeansWinner(ls: seq<FieldSpec>, i: int) returns (k: int)
    requires Indexed(ls) && Survives(ls, i)
    ensures Winner(ls, ls[i].name, k)
  {
    ListIsSurvivors(ls);
    ListAgainstTable(ls);
    TablesHoldWinners(ls, ls[i].name);
    var a := SurvivorListed(ls, |ls|, i);
    k :| Winner(ls, ls[i].name, k);
  }

  lemma {:induction false} SurvivorListed(ls: seq<FieldSpec>, n: nat, i: int) returns (a: nat)
    requires n <= |ls| && i < n && Survives(ls, i)
    ensures a < |Survivors(ls, n)| && Survivors(ls, n)[a] == ls[i]
    decreases n
  {
    if i == n - 1 {
      a := |Survivors(ls, n - 1)|;
    } else {
      a := SurvivorListed(ls, n - 1, i);
    }
  }

  lemma {:induction false} SurvivorsListed(ls: seq<FieldSpec>, n: nat, i: int, j: int) returns (a: nat, b: nat)
    requires n <= |ls| && i < j < n && Survives(ls, i) && Survives(ls, j)
    ensures a < b < |Survivors(ls, n)| && Survivors(ls, n)[a] == ls[i] && Survivors(ls, n)[b] == ls[j]
    decreases n
  {
    if j == n - 1 {
      a := SurvivorListed(ls, n - 1, i);
      b := |Survivors(ls, n - 1)|;
    } else {
      a, b := SurvivorsListed(ls, n - 1, i, j);
    }
  }

  lemma LateWinnerAfterSurvivors(ls: seq<FieldSpec>, i: int, j: int) returns (w: int, k: int)
    requires Indexed(ls) && BothSurvive(ls, i, j)
    ensures WinsLate(ls, ls[i].name, w, k)
  {
    k := SurvivorMeansWinner(ls, i);
    assert SameName(ls, ls[i].name, i) && SameName(ls, ls[i].name, j) && SameName(ls, ls[i].name, k);
    assert i < k;
    SurvivesPrefix(ls, k, i);
    w := SurvivorMeansWinner(ls[..k], i);
  }

  lemma LateWinnerMeansSurvivors(ls: seq<FieldSpec>, name: string, j: int, k: int)
    requires WinsLate(ls, name, j, k)
    ensures BothSurvive(ls, j, k)
  {
    var init := ls[..k];
    assert forall i :: SameName(init, name, i) <==> SameName(ls, name, i) && i < k;
    assert SameName(init, name, j);
    forall i | SameName(ls, name, i) && j < i ensures !TieAt(ls, i) {
      if i < k {
        assert SameName(init, name, i);
      } else if i == k {
        assert forall e :: SameName(ls, name, e) && e != k ==> Depth(ls[k]) < Depth(ls[e]);
      } else {
        assert SameName(ls, ls[i].name, k);
      }
    }
  }

  lemma RepeatsAreSurvivors(ls: seq<FieldSpec>)
    requires Indexed(ls)
    ensures UniqueNames(VisitAll(EMPTY, ls).l) <==> !exists i, j :: BothSurvive(ls, i, j)
  {
    ListIsSurvivors(ls);
    var l := Survivors(ls, |ls|);
    if i, j :| BothSurvive(ls, i, j) {
      var a, b := SurvivorsListed(ls, |ls|, i, j);
    }
    if !UniqueNames(l) {
      var a, b :| 0 <= a < b < |l| && l[a].name == l[b].name;
      var i, j := SurvivorsInOrder(ls, |ls|, a, b);
      assert BothSurvive(ls, i, j);
    }
  }

  lemma RepeatsAreLateWinners(ls: seq<FieldSpec>)
    requires Indexed(ls)
    ensures UniqueNames(VisitAll(EMPTY, ls).l) <==> !exists name, j, k :: WinsLate(ls, name, j, k)
  {
    RepeatsAreSurvivors(ls);
    if i, j :| BothSurvive(ls, i, j) {
      var w, k := LateWinnerAfterSurvivors(ls, i, j);
    }
    if name, j, k :| WinsLate(ls, name, j, k) {
      LateWinnerMeansSurvivors(ls, name, j, k);
    }
  }

  // ------------------------------------------------------------------------------------------
  // Over the type.

  ghost predicate LeafNamed(t: Type, name: string, p: seq<nat>) {
    RoleAt(t, p).Leaf? && RoleAt(t, p).name == name
  }

  /** Of the leaves of this name that are declared before q, p is the only shallowest. */
  ghost predicate SelectedBefore(t: Type, name: string, p: seq<nat>, q: seq<nat>) {
    && LeafNamed(t, name, p) && Before(p, q) && |p| <= NO_DEPTH
    && (forall r :: LeafNamed(t, name, r) && Before(r, q) && r != p ==> |p| < |r|)
  }

  /** The field a name stands for is declared after one that the name would stand for without it and
      all that follows. */
  ghost predicate Shadows(t: Type, name: string, p: seq<nat>, q: seq<nat>) {
    Selected(t, name, q) && SelectedBefore(t, name, p, q)
  }

  ghost predicate NoShadowing(t: Type) {
    forall name, p, q :: !Shadows(t, name, p, q)
  }

  lemma BeforeIsOneWay(p: seq<nat>, q: seq<nat>)
    requires Before(p, q)
    ensures !Before(q, p)
  {
  }

  lemma LeafAt(t: Type, k: nat)
    requires t.Struct? && k < |Leaves(t, [], 0)|
    ensures var fs := Leaves(t, [], 0)[k]; RoleAt(t, fs.index).Leaf? && fs == SpecAt(t, fs.index)
  {
    LeavesSound(t, [], 0, k);
    var p := Leaves(t, [], 0)[k].index;
    assert p[0..] == p;
  }

  lemma PositionOf(t: Type, p: seq<nat>) returns (k: nat)
    requires t.Struct? && RoleAt(t, p).Leaf?
    ensures k < |Leaves(t, [], 0)| && Leaves(t, [], 0)[k] == SpecAt(t, p)
  {
    k := LeavesComplete(t, [], 0, p);
    assert [] + p == p;
    LeafAt(t, k);
  }

  /** Positions in the leaf list are ordered as the paths are. */
  lemma OrderOfLeaves(t: Type, a: nat, b: nat)
    requires t.Struct? && a < |Leaves(t, [], 0)| && b < |Leaves(t, [], 0)|
    ensures a < b <==> Before(Leaves(t, [], 0)[a].index, Leaves(t, [], 0)[b].index)
  {
    if a < b {
      LeavesInOrder(t, [], 0, a, b);
    } else if b < a {
      LeavesInOrder(t, [], 0, b, a);
      BeforeIsOneWay(Leaves(t, [], 0)[b].index, Leaves(t, [], 0)[a].index);
    }
  }

  lemma LateWinnerShadows(t: Type, name: string, j: int, k: int)
    requires t.Struct? && WinsLate(Leaves(t, [], 0), name, j, k)
    ensures Shadows(t, name, Leaves(t, [], 0)[j].index, Leaves(t, [], 0)[k].index)
  {
    var ls := Leaves(t, [], 0);
    var p, q := ls[j].index, ls[k].index;
    WinnerIsSelected(t, name, k);
    LeafAt(t, j);
    OrderOfLeaves(t, j, k);
    forall r | LeafNamed(t, name, r) && Before(r, q) && r != p ensures |p| < |r| {
      var e := PositionOf(t, r);
      OrderOfLeaves(t, e, k);
      assert SameName(ls[..k], name, e);
    }
  }

  lemma ShadowingWinsLate(t: Type, name: string, p: seq<nat>, q: seq<nat>) returns (j: nat, k: nat)
    requires t.Struct? && Shadows(t, name, p, q)
    ensures WinsLate(Leaves(t, [], 0), name, j, k)
  {
    var ls := Leaves(t, [], 0);
    k := SelectedIsWinner(t, name, q);
    j := PositionOf(t, p);
    OrderOfLeaves(t, j, k);
    forall e | SameName(ls[..k], name, e) && e != j ensures Depth(ls[j]) < Depth(ls[e]) {
      LeafAt(t, e);
      OrderOfLeaves(t, e, k);
      LeavesDistinct(t, e, j);
    }
    assert SameName(ls[..k], name, j);
  }

  /** The compiled list names no field twice exactly when the type has no such pair of fields. */
  lemma UniqueIffNoShadowing(t: Type)
    requires t.Struct?
    ensures UniqueNames(Compiled(t).l) <==> NoShadowing(t)
  {
    LeavesIndexed(t, [], 0);
    RepeatsAreLateWinners(Leaves(t, [], 0));
    if name, j, k :| WinsLate(Leaves(t, [], 0), name, j, k) {
      LateWinnerShadows(t, name, j, k);
    }
    if name, p, q :| Shadows(t, name, p, q) {
      var j, k := ShadowingWinsLate(t, name, p, q);
    }
  }

  /** struct { E struct { X bool }; X bool } with E embedded. */
  const FLAG := Field("X", "", false, "", Basic(BoolKind))
  const SHADOWED := Struct([Field("E", "", true, "", Struct([FLAG])), FLAG])

  /** Its list names X twice: the embedded field first, then the one that shadows it. */
  lemma ShadowedIsListedTwice()
    ensures Compiled(SHADOWED).l == [FieldSpec("X", [0, 0], false), FieldSpec("X", [1], false)]
    ensures !NoShadowing(SHADOWED)
  {
    var inner := Struct([FLAG]);
    var a, b := FieldSpec("X", [0, 0], false), FieldSpec("X", [1], false);
    assert Split("") == [""];
    assert RoleOf(FLAG) == Leaf("X", false) && RoleOf(SHADOWED.fields[0]).Embedded?;
    assert Leaves(inner, [0], 1) == [];
    assert Leaves(inner, [0], 0) == [FieldSpec("X", [0] + [0], false)] + [];
    assert Leaves(SHADOWED, [], 2) == [];
    assert Leaves(SHADOWED, [], 1) == [FieldSpec("X", [] + [1], false)] + [];
    assert Leaves(SHADOWED, [], 0) == Leaves(inner, [] + [0], 0) + Leaves(SHADOWED, [], 1);
    assert [] + [0] == [0] && [0] + [0] == [0, 0] && [] + [1] == [1];
    assert Leaves(SHADOWED, [], 0) == [a, b];
    assert [a, b][..1] == [a] && [a][..0] == [];
    assert VisitAll(EMPTY, [a]) == Visit(EMPTY, a);
    assert VisitAll(EMPTY, [a, b]) == Visit(VisitAll(EMPTY, [a]), b);
    UniqueIffNoShadowing(SHADOWED);
    assert Compiled(SHADOWED).l[0].name == Compiled(SHADOWED).l[1].name;
  }
}
