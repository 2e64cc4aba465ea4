/**
  The edit-distance guard of src/syllva/config/loader.py: the two-row dynamic program of
  `_levenshtein` and the typo check on top-level configuration keys that uses it.
*/
module EditDistance {
  import opened Wrappers

  // ---------------------------------------------------------------------------------------
  // The independent definition: scripts of single-character edits

  datatype Edit = Insert(at: nat, c: char) | Delete(at: nat) | Substitute(at: nat, c: char)

  predicate Fits(e: Edit, s: string) { if e.Insert? then e.at <= |s| else e.at < |s| }

  function Apply(e: Edit, s: string): string
    requires Fits(e, s)
  {
    match e
    case Insert(at, c) => s[..at] + [c] + s[at..]
    case Delete(at) => s[..at] + s[at+1..]
    case Substitute(at, c) => s[at := c]
  }

  /** The script turns `s` into `t`, one edit after the other. */
  predicate Turns(script: seq<Edit>, s: string, t: string) {
    if script == [] then s == t
    else Fits(script[0], s) && Turns(script[1..], Apply(script[0], s), t)
  }

  /** `d` is the length of a shortest script from `s` to `t`. */
  ghost predicate IsDistance(d: nat, s: string, t: string) {
    && (exists script :: Turns(script, s, t) && |script| == d)
    && (forall script :: Turns(script, s, t) ==> d <= |script|)
  }

  // ---------------------------------------------------------------------------------------
  // The recurrence

  function Min(a: nat, b: nat): nat { if a <= b then a else b }

  function Front(s: string): string
    requires s != []
  {
    s[..|s|-1]
  }

  function Last(s: string): char
    requires s != []
  {
    s[|s|-1]
  }

  function Cost(c: char, d: char): nat { if c == d then 0 else 1 }

  function Distance(s: string, t: string): nat
    decreases |s| + |t|
  {
    if s == [] then |t|
    else if t == [] then |s|
    else Min(Min(Distance(Front(s), t) + 1, Distance(s, Front(t)) + 1), Distance(Front(s), Front(t)) + Cost(Last(s), Last(t)))
  }

  lemma {:induction false} DistanceToSelf(s: string)
    ensures Distance(s, s) == 0
  {
    if s != [] { DistanceToSelf(Front(s)); }
  }

  // ---------------------------------------------------------------------------------------
  // A script of that length exists

  lemma {:induction false} TurnsTogether(p: seq<Edit>, q: seq<Edit>, s: string, t: string, u: string)
    requires Turns(p, s, t) && Turns(q, t, u)
    ensures Turns(p + q, s, u)
  {
    hide Apply, Fits;
    if p == [] {
      assert p + q == q;
    } else {
      TurnsTogether(p[1..], q, Apply(p[0], s), t, u);
      assert (p + q)[1..] == p[1..] + q;
    }
  }

  /** A script still works in front of an untouched last character. */
  lemma {:induction false} TurnsBefore(p: seq<Edit>, s: string, t: string, c: char)
    requires Turns(p, s, t)
    ensures Turns(p, s + [c], t + [c])
  {
    if p != [] {
      assert Apply(p[0], s + [c]) == Apply(p[0], s) + [c];
      TurnsBefore(p[1..], Apply(p[0], s), t, c);
    }
  }

  lemma TurnsNothing(s: string)
    ensures Turns([], s, s)
  {
  }

  lemma OneEdit(e: Edit, s: string, t: string)
    requires Fits(e, s) && Apply(e, s) == t
    ensures Turns([e], s, t)
  {
    hide Apply, Fits;
    assert [e][1..] == [];
  }

  lemma OneDeletion(s: string)
    requires s != []
    ensures Turns([Delete(|s| - 1)], s, Front(s))
  {
    OneEdit(Delete(|s| - 1), s, Front(s));
  }

  lemma OneInsertion(s: string)
    requires s != []
    ensures Turns([Insert(|s| - 1, Last(s))], Front(s), s)
  {
    hide Turns;
    assert Apply(Insert(|s| - 1, Last(s)), Front(s)) == s;
    OneEdit(Insert(|s| - 1, Last(s)), Front(s), s);
  }

  lemma OneSubstitution(s: string, c: char)
    requires s != []
    ensures Turns([Substitute(|s| - 1, Last(s))], Front(s) + [c], s)
  {
    hide Turns;
    assert Apply(Substitute(|s| - 1, Last(s)), Front(s) + [c]) == s;
    OneEdit(Substitute(|s| - 1, Last(s)), Front(s) + [c], s);
  }

  lemma {:induction false} Attained(s: string, t: string) returns (script: seq<Edit>)
    ensures Turns(script, s, t) && |script| == Distance(s, t)
    decreases |s| + |t|
  {
    hide Turns, Apply;
    if s == [] && t == [] {
      script := [];
      TurnsNothing(s);
    } else if s != [] && (t == [] || Distance(s, t) == Distance(Front(s), t) + 1) {
      var p := Attained(Front(s), t);
      OneDeletion(s);
      script := [Delete(|s| - 1)] + p;
      TurnsTogether([Delete(|s| - 1)], p, s, Front(s), t);
    } else if s == [] || Distance(s, t) == Distance(s, Front(t)) + 1 {
      var p := Attained(s, Front(t));
      var e := Insert(|t| - 1, Last(t));
      OneInsertion(t);
      script := p + [e];
      TurnsTogether(p, [e], s, Front(t), t);
    } else {
      var p := Attained(Front(s), Front(t));
      TurnsBefore(p, Front(s), Front(t), Last(s));
      assert Front(s) + [Last(s)] == s;
      if Last(s) == Last(t) {
        assert Front(t) + [Last(s)] == t;
        script := p;
      } else {
        var mid := Front(t) + [Last(s)];
        var e := Substitute(|t| - 1, Last(t));
        OneSubstitution(t, Last(s));
        script := p + [e];
        TurnsTogether(p, [e], s, mid, t);
      }
    }
  }

  // ---------------------------------------------------------------------------------------
  // No script is shorter

  lemma {:induction false} DroppingLast(s: string, t: string)
    requires t != []
    ensures Distance(s, Front(t)) <= Distance(s, t) + 1
  {
    if s != [] { DroppingLast(Front(s), t); }
  }

  lemma {:induction false} ChangingLast(s: string, t: string, c: char)
    requires t != []
    ensures Distance(s, Front(t) + [c]) <= Distance(s, t) + 1
  {
    var u := Front(t) + [c];
    assert Front(u) == Front(t);
    if s != [] { ChangingLast(Front(s), t, c); }
  }

  /** The edit leaves the last character alone: it is the same edit before it. */
  lemma EditBefore(e: Edit, t: string)
    requires Fits(e, t) && e.at < |t| - 1
    ensures Fits(e, Front(t)) && Apply(e, t) != []
    ensures Front(Apply(e, t)) == Apply(e, Front(t)) && Last(Apply(e, t)) == Last(t)
  {
  }

  lemma InsertingBeforeLast(e: Edit, t: string)
    requires e.Insert? && t != [] && e.at == |t| - 1
    ensures Fits(e, Front(t)) && Fits(e, t)
    ensures Apply(e, t) == Front(t) + [e.c] + [Last(t)] && Apply(e, Front(t)) == Front(t) + [e.c]
  {
  }

  /** One edit of the second string changes the distance by at most one. */
  lemma {:induction false} EditStep(s: string, t: string, e: Edit)
    requires Fits(e, t)
    ensures Distance(s, Apply(e, t)) <= Distance(s, t) + 1
    decreases |s| + |t|
  {
    var u := Apply(e, t);
    if e.at == |t| {
      assert Front(u) == t;
    } else if e.at == |t| - 1 && !e.Insert? {
      if e.Delete? {
        assert u == Front(t);
        DroppingLast(s, t);
      } else {
        assert u == Front(t) + [e.c];
        ChangingLast(s, t, e.c);
      }
    } else {
      if e.at == |t| - 1 { InsertingBeforeLast(e, t); } else { EditBefore(e, t); }
      assert Front(u) == Apply(e, Front(t)) && Last(u) == Last(t);
      EditStep(s, Front(t), e);
      if s != [] {
        EditStep(Front(s), t, e);
        EditStep(Front(s), Front(t), e);
      }
    }
  }

  lemma {:induction false} NoneShorter(script: seq<Edit>, r: string, s: string, t: string)
    requires Turns(script, s, t)
    ensures Distance(r, t) <= Distance(r, s) + |script|
  {
    if script != [] {
      EditStep(r, s, script[0]);
      NoneShorter(script[1..], r, Apply(script[0], s), t);
    }
  }

  /** The recurrence computes the shortest script length. */
  lemma DistanceIsShortest(s: string, t: string)
    ensures IsDistance(Distance(s, t), s, t)
  {
    var script := Attained(s, t);
    forall p | Turns(p, s, t) ensures Distance(s, t) <= |p| {
      NoneShorter(p, s, s, t);
      DistanceToSelf(s);
    }
  }

  // ---------------------------------------------------------------------------------------
  // A metric

  lemma DistanceIsZeroOnlyOnEqual(s: string, t: string)
    ensures Distance(s, t) == 0 <==> s == t
  {
    DistanceToSelf(s);
    var script := Attained(s, t);
  }

  lemma {:induction false} DistanceIsSymmetric(s: string, t: string)
    ensures Distance(s, t) == Distance(t, s)
    decreases |s| + |t|
  {
    if s != [] && t != [] {
      DistanceIsSymmetric(Front(s), t);
      DistanceIsSymmetric(s, Front(t));
      DistanceIsSymmetric(Front(s), Front(t));
    }
  }

  lemma TriangleInequality(r: string, s: string, t: string)
    ensures Distance(r, t) <= Distance(r, s) + Distance(s, t)
  {
    var script := Attained(s, t);
    NoneShorter(script, r, s, t);
  }

  // ---------------------------------------------------------------------------------------
  // The two-row program

  /** The distance between the first `i` and the first `j` characters. */
  ghost function Cell(left: string, right: string, i: nat, j: nat): nat
    requires i <= |left| && j <= |right|
  {
    Distance(left[..i], right[..j])
  }

  lemma CellEdges(left: string, right: string, i: nat, j: nat)
    requires i <= |left| && j <= |right|
    ensures Cell(left, right, i, 0) == i && Cell(left, right, 0, j) == j
  {
  }

  lemma CellStep(left: string, right: string, i: nat, j: nat)
    requires 0 < i <= |left| && 0 < j <= |right|
    ensures Cell(left, right, i, j) == Min(Min(Cell(left, right, i-1, j) + 1, Cell(left, right, i, j-1) + 1),
                                           Cell(left, right, i-1, j-1) + Cost(left[i-1], right[j-1]))
  {
    assert Front(left[..i]) == left[..i-1] && Front(right[..j]) == right[..j-1];
  }

  method Levenshtein(left: string, right: string) returns (d: nat)
    ensures IsDistance(d, left, right)
    ensures d == Distance(left, right)
  {
    hide Distance, IsDistance, Cell;
    DistanceIsShortest(left, right);
    if left == right {
      DistanceToSelf(left);
      return 0;
    }
    var previous := new nat[|right| + 1](j => j);
    forall j | 0 <= j <= |right| ensures Cell(left, right, 0, j) == j { CellEdges(left, right, 0, j); }
    for i := 1 to |left| + 1
      invariant fresh(previous) && previous.Length == |right| + 1
      invariant forall j :: 0 <= j <= |right| ==> previous[j] == Cell(left, right, i-1, j)
    {
      var current := new nat[|right| + 1](j => if j == 0 then i else 0);
      CellEdges(left, right, i, 0);
      for j := 1 to |right| + 1
        modifies current
        invariant forall k :: 0 <= k < j ==> current[k] == Cell(left, right, i, k)
      {
        CellStep(left, right, i, j);
        var cost := if left[i-1] == right[j-1] then 0 else 1;
        current[j] := Min(Min(previous[j] + 1, current[j-1] + 1), previous[j-1] + cost);
      }
      previous := current;
    }
    WholeCell(left, right);
    d := previous[|right|];
  }

  lemma WholeCell(left: string, right: string)
    ensures Cell(left, right, |left|, |right|) == Distance(left, right)
  {
    assert left[..|left|] == left && right[..|right|] == right;
  }

  // ---------------------------------------------------------------------------------------
  // The typo guard

  /** A YAML mapping key; `Other` is any key that is not a string. */
  datatype Key = Text(text: string) | Other

  const TARGET := "credentials"

  /** Some script of at most two edits turns the lower-case key into the protected name. */
  ghost predicate NearTarget(lower: string -> string, key: Key) {
    && key.Text? && key.text != TARGET
    && exists script :: Turns(script, lower(key.text), TARGET) && |script| <= 2
  }

  lemma NearByDistance(lower: string -> string, key: Key)
    ensures NearTarget(lower, key) <==> key.Text? && key.text != TARGET && Distance(lower(key.text), TARGET) <= 2
  {
    if key.Text? { DistanceIsShortest(lower(key.text), TARGET); }
  }

  /**
    Rejects with the first key that is a near miss of the protected name, and rejects nothing else.
    `lower` stands for `str.lower`.
   */
  method CheckTopLevelTypos(raw: seq<Key>, lower: string -> string) returns (r: Result<(), string>)
    ensures r.Ok? <==> forall i :: 0 <= i < |raw| ==> !NearTarget(lower, raw[i])
    ensures r.Err? ==> exists i :: (
      && 0 <= i < |raw| && raw[i] == Text(r.error) && NearTarget(lower, raw[i])
      && (forall j :: 0 <= j < i ==> !NearTarget(lower, raw[j])))
  {
    hide NearTarget, Distance;
    for i := 0 to |raw|
      invariant forall j :: 0 <= j < i ==> !NearTarget(lower, raw[j])
    {
      NearByDistance(lower, raw[i]);
      if raw[i].Other? || raw[i].text == TARGET {
        assert !NearTarget(lower, raw[i]);
        continue;
      }
      var word := lower(raw[i].text);
      DistanceIsZeroOnlyOnEqual(word, TARGET);
      var d := Levenshtein(word, TARGET);
      if word == TARGET || 0 < d <= 2 {
        return Err(raw[i].text);
      }
      assert d > 2;
      assert !NearTarget(lower, raw[i]);
    }
    r := Ok(());
  }
}
