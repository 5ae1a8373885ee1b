/** compileStructSpec in its own form: tables updated in place, and index prefixes handed down as
    slices that may share one backing array between sibling fields. */
module SpecBuilder {
  import opened Texts
  import opened GoTypes
  import opened StructSpec
  import opened FieldOrder

  /** A Go slice of field numbers: the first `len` cells of `buf`, whose capacity is `buf.Length`. */
  datatype IndexSlice = IndexSlice(buf: array<nat>, len: nat) {
    ghost predicate Valid() { len <= buf.Length }

    ghost function View(): seq<nat>
      requires Valid()
      reads buf
    {
      buf[..len]
    }
  }

  /** Go's append of one element: in place while there is capacity, else into a larger copy. */
  method Append(s: IndexSlice, x: nat) returns (r: IndexSlice)
    requires s.Valid()
    modifies s.buf
    ensures r.Valid() && r.View() == old(s.View()) + [x]
    ensures s.View() == old(s.View())
    ensures if s.len < s.buf.Length then r.buf == s.buf else fresh(r.buf)
  {
    if s.len < s.buf.Length {
      s.buf[s.len] := x;
      r := IndexSlice(s.buf, s.len + 1);
    } else {
      var grown := new nat[2 * s.buf.Length + 1];
      for k := 0 to s.len
        modifies grown
        invariant grown[..k] == s.buf[..k]
      {
        grown[k] := s.buf[k];
      }
      grown[s.len] := x;
      r := IndexSlice(grown, s.len + 1);
    }
  }

  /** The tables after one field, embedded struct or leaf. */
  ghost function VisitField(s: Tables, f: Field, path: seq<nat>): Tables
    requires |path| > 0
  {
    match RoleOf(f)
    case Embedded => LeavesIndexed(f.typ, path, 0); VisitAll(s, Leaves(f.typ, path, 0))
    case Leaf(name, omitEmpty) => Visit(s, FieldSpec(name, path, omitEmpty))
    case _ => s
  }

  lemma VisitFromField(s: Tables, t: Type, prefix: seq<nat>, i: nat)
    requires t.Struct? && i < |t.fields|
    ensures Indexed(Leaves(t, prefix, i)) && Indexed(Leaves(t, prefix, i + 1))
    ensures VisitAll(s, Leaves(t, prefix, i)) ==
            VisitAll(VisitField(s, t.fields[i], prefix + [i]), Leaves(t, prefix, i + 1))
  {
    var f, rest := t.fields[i], Leaves(t, prefix, i + 1);
    LeavesIndexed(t, prefix, i);
    LeavesIndexed(t, prefix, i + 1);
    match RoleOf(f) {
      case Embedded =>
        LeavesIndexed(f.typ, prefix + [i], 0);
        VisitAllAppend(s, Leaves(f.typ, prefix + [i], 0), rest);
      case Leaf(name, omitEmpty) =>
        var fs := FieldSpec(name, prefix + [i], omitEmpty);
        assert [fs][..0] == [];
        assert VisitAll(s, [fs]) == Visit(s, fs);
        VisitAllAppend(s, [fs], rest);
      case _ =>
        assert [] + rest == rest;
    }
  }

  class Builder {
    var depth: map<string, nat>
    var m: map<string, FieldSpec>
    var l: seq<FieldSpec>

    ghost function Now(): Tables
      reads this
    {
      Tables(depth, m, l)
    }

    constructor ()
      ensures Now() == EMPTY
    {
      depth, m, l := map[], map[], [];
    }

    /** The in-place compaction loop: what is left is the list without one name, in order. */
    method Compact(name: string)
      modifies `l
      ensures l == Without(old(l), name)
    {
      var j := 0;
      ghost var was := l;
      for ii := 0 to |l|
        invariant |l| == |was| && j <= ii
        invariant l[..j] == Without(was[..ii], name)
        invariant l[ii..] == was[ii..]
      {
        assert was[..ii + 1][..ii] == was[..ii];
        assert l[ii] == l[ii..][0] == was[ii..][0] == was[ii];
        assert l[ii + 1..] == l[ii..][1..] == was[ii..][1..] == was[ii + 1..];
        if name != l[ii].name {
          l := l[j := l[ii]];
          j := j + 1;
        }
      }
      assert was[..|was|] == was;
      l := l[..j];
    }

    /** The switch on the depth a leaf arrives at. */
    method Enter(fs: FieldSpec)
      requires |fs.index| > 0
      modifies this
      ensures Now() == Visit(old(Now()), fs)
    {
      var d := if fs.name in depth then depth[fs.name] else NO_DEPTH;
      if |fs.index| - 1 == d {
        m := m - {fs.name};
        Compact(fs.name);
      } else if |fs.index| - 1 < d {
        depth := depth[fs.name := |fs.index| - 1];
        m := m[fs.name := fs];
        l := l + [fs];
      }
    }

    /** Whatever the sibling walks did to a shared backing array, the tables end as if every leaf
        had been visited with its own path, and the caller's prefix is as it was. */
    method Compile(t: Type, index: IndexSlice) returns (panicked: bool)
      requires t.Struct? && index.Valid()
      modifies this, index.buf
      ensures index.View() == old(index.View())
      ensures panicked <==> ListBad(t.fields)
      ensures !panicked ==>
        Indexed(Leaves(t, old(index.View()), 0)) && Now() == VisitAll(old(Now()), Leaves(t, old(index.View()), 0))
      decreases t
    {
      ghost var start, prefix := Now(), index.View();
      LeavesIndexed(t, prefix, 0);
      var i := 0;
      while i < |t.fields|
        invariant 0 <= i <= |t.fields| && index.View() == prefix
        invariant ListBad(t.fields) <==> ListBad(t.fields[i..])
        invariant Indexed(Leaves(t, prefix, i)) && Indexed(Leaves(t, prefix, 0))
        invariant VisitAll(Now(), Leaves(t, prefix, i)) == VisitAll(start, Leaves(t, prefix, 0))
      {
        VisitFromField(Now(), t, prefix, i);
        panicked := CompileField(t.fields[i], index, i);
        if panicked { return; }
        i := i + 1;
      }
      panicked := false;
    }

    /** The body of that loop: one field of the struct. */
    method CompileField(f: Field, index: IndexSlice, i: nat) returns (panicked: bool)
      requires index.Valid()
      modifies this, index.buf
      ensures index.View() == old(index.View())
      ensures panicked <==> FieldBad(f)
      ensures !panicked ==> Now() == VisitField(old(Now()), f, old(index.View()) + [i])
      decreases f
    {
      panicked := false;
      if f.pkgPath != "" && !f.anonymous {
      } else if f.anonymous {
        if f.typ.Struct? {
          var child := Append(index, i);
          panicked := Compile(f.typ, child);
        }
      } else {
        var role := ReadTag(f);
        match role {
          case BadTag => panicked := true;
          case Leaf(name, omitEmpty) => Enter(FieldSpec(name, index.buf[..index.len] + [i], omitEmpty));
          case _ =>
        }
      }
    }
  }

  /** Reading the tag of an exported, named field; an unknown option is a panic. */
  method ReadTag(f: Field) returns (role: Role)
    requires !f.anonymous && f.pkgPath == ""
    ensures role == RoleOf(f)
  {
    var p := Split(f.tag);
    if p[0] == "-" { return Ignored; }
    var name := if |p[0]| > 0 then p[0] else f.name;
    var omitEmpty := false;
    for k := 1 to |p|
      invariant omitEmpty <==> k > 1
      invariant forall j :: 1 <= j < k ==> p[j] == "omitempty"
    {
      if p[k] != "omitempty" { return BadTag; }
      omitEmpty := true;
    }
    return Leaf(name, omitEmpty);
  }

  /** A fresh compile of a type, from a nil index slice. */
  method CompileType(t: Type) returns (panicked: bool, m: map<string, FieldSpec>, l: seq<FieldSpec>)
    requires t.Struct?
    ensures panicked <==> HasBadTag(t)
    ensures !panicked ==> m == Compiled(t).m && l == Compiled(t).l
  {
    BadTagIsListBad(t);
    var nothing := new nat[0];
    var b := new Builder();
    panicked := b.Compile(t, IndexSlice(nothing, 0));
    m, l := b.m, b.l;
  }
}
