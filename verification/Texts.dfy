/** strings.Split and strings.Join with a comma. */
module Texts {
  function Split(s: string): (p: seq<string>)
    ensures |p| >= 1
  {
    if s == "" then [""]
    else
      var rest := Split(s[1..]);
      if s[0] == ',' then [""] + rest else [[s[0]] + rest[0]] + rest[1..]
  }

  function Join(p: seq<string>): string {
    if p == [] then "" else if |p| == 1 then p[0] else p[0] + "," + Join(p[1..])
  }

  predicate NoComma(s: string) { ',' !in s }

  /** One part is itself, and lists of parts are joined by one comma. */
  lemma {:induction false} JoinConcat(p: seq<string>, q: seq<string>)
    requires p != [] && q != []
    ensures Join([p[0]]) == p[0] && Join(p + q) == Join(p) + "," + Join(q)
    decreases |p|
  {
    if |p| == 1 {
      assert (p + q)[0] == p[0] && (p + q)[1..] == q;
    } else {
      JoinConcat(p[1..], q);
      assert (p + q)[0] == p[0] && (p + q)[1..] == p[1..] + q;
      assert p[0] + "," + (Join(p[1..]) + "," + Join(q)) == (p[0] + "," + Join(p[1..])) + "," + Join(q);
    }
  }

  /** The parts have no comma, and joined they are the text again. */
  lemma {:induction false} SplitParts(s: string)
    ensures Join(Split(s)) == s && forall k :: 0 <= k < |Split(s)| ==> NoComma(Split(s)[k])
    decreases |s|
  {
    if s != "" {
      SplitParts(s[1..]);
      var rest := Split(s[1..]);
      if s[0] == ',' {
        assert ([""] + rest)[1..] == rest;
        assert s == "" + "," + s[1..];
      } else {
        assert ([[s[0]] + rest[0]] + rest[1..])[1..] == rest[1..];
        assert s == [s[0]] + s[1..];
        if |rest| > 1 {
          assert [s[0]] + (rest[0] + "," + Join(rest[1..])) == ([s[0]] + rest[0]) + "," + Join(rest[1..]);
        }
      }
    }
  }

  lemma {:induction false} SplitOne(s: string)
    requires NoComma(s)
    ensures Split(s) == [s]
    decreases |s|
  {
    if s != "" {
      SplitOne(s[1..]);
      assert s == [s[0]] + s[1..];
    }
  }

  lemma {:induction false} SplitAtComma(s: string, rest: string)
    requires NoComma(s)
    ensures Split(s + "," + rest) == [s] + Split(rest)
    decreases |s|
  {
    var whole := s + "," + rest;
    if s == "" {
      assert whole[1..] == rest;
    } else {
      SplitAtComma(s[1..], rest);
      assert whole[0] == s[0] && whole[1..] == s[1..] + "," + rest;
      assert s == [s[0]] + s[1..];
    }
  }

  /** Parts without commas are found again. */
  lemma {:induction false} SplitJoined(p: seq<string>)
    requires p != [] && forall k :: 0 <= k < |p| ==> NoComma(p[k])
    ensures Split(Join(p)) == p
    decreases |p|
  {
    if |p| == 1 {
      SplitOne(p[0]);
    } else {
      SplitJoined(p[1..]);
      SplitAtComma(p[0], Join(p[1..]));
      assert p == [p[0]] + p[1..];
    }
  }

  /** So what they are joined to tells them apart. */
  lemma JoinTellsApart(p: seq<string>, q: seq<string>)
    requires p != [] && forall k :: 0 <= k < |p| ==> NoComma(p[k])
    requires q != [] && forall k :: 0 <= k < |q| ==> NoComma(q[k])
    ensures Join(p) == Join(q) <==> p == q
  {
    SplitJoined(p);
    SplitJoined(q);
  }
}
