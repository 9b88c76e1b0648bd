/** Composition takes the first code point for a starter whatever its class. This is when that matters. */
module StarterRule {
  import opened Normalize

  /** The output so far, the position of the last starter, -1 before there is one, and the class of the last
      code point written after it. */
  datatype Strict = Strict(out: seq<Cp>, starter: int, last: int)

  function StrictStep(ccc: Ccc, comp: Compose, w: Strict, ch: Cp): (r: Strict)
    requires -1 <= w.starter < |w.out|
    ensures -1 <= r.starter < |r.out|
  {
    if w.starter >= 0 && comp(w.out[w.starter], ch) != 0 && w.last < ccc(ch) then
      w.(out := w.out[w.starter := comp(w.out[w.starter], ch)])
    else if ccc(ch) == 0 then Strict(w.out + [ch], |w.out|, -1)
    else Strict(w.out + [ch], w.starter, ccc(ch))
  }

  /** Composition with starters only: a code point is composed with the last one of class 0, if there is one. */
  function StrictComposed(ccc: Ccc, comp: Compose, s: seq<Cp>): (w: Strict)
    requires s != []
    ensures -1 <= w.starter < |w.out|
  {
    if |s| == 1 then Strict(s, if ccc(s[0]) == 0 then 0 else -1, if ccc(s[0]) == 0 then -1 else ccc(s[0]))
    else StrictStep(ccc, comp, StrictComposed(ccc, comp, s[..|s| - 1]), s[|s| - 1])
  }

  // No mark composes with a starter or with a mark of its own or a higher class.
  ghost predicate MarksStayApart(ccc: Ccc, comp: Compose) {
    forall a: Cp, b: Cp :: StayApart(ccc, comp, a, b)
  }

  ghost predicate StayApart(ccc: Ccc, comp: Compose, a: Cp, b: Cp) {
    ccc(a) > 0 && (ccc(b) == 0 || ccc(a) <= ccc(b)) ==> comp(a, b) == 0
  }

  /** A leading mark that composes with the next code point is replaced; composing with starters only, both
      stay. */
  lemma LeadingMarkComposes(ccc: Ccc, comp: Compose, a: Cp, b: Cp)
    requires ccc(a) > 0 && comp(a, b) != 0
    ensures Composed(ccc, comp, [a, b]).out == [comp(a, b)] && StrictComposed(ccc, comp, [a, b]).out == [a, b]
    ensures RunsSorted(ccc, [a, b]) <==> ccc(b) == 0 || ccc(a) <= ccc(b)
  {
    var s := [a, b];
    assert s[..1] == [a];
    assert OneRun(ccc, s, 0, 1) <==> ccc(b) != 0;
    forall i: nat, j: nat | OneRun(ccc, s, i, j) ensures i == j || (i == 0 && j == 1) {}
  }

  // The two folds are at the same point: with one starter, or both before the first one.
  ghost predicate Together(ccc: Ccc, s: seq<Cp>, i: nat, w: Work, v: Strict)
    requires 0 < i <= |s|
  {
    w.out == v.out &&
    if v.starter >= 0 then w.starter == v.starter && w.last == v.last
    else w.starter == 0 && w.out == s[..i] && OneRun(ccc, s, 0, i - 1)
  }

  lemma StepTogether(ccc: Ccc, comp: Compose, s: seq<Cp>, i: nat, w: Work, v: Strict)
    requires RunsSorted(ccc, s) && MarksStayApart(ccc, comp) && 0 < i < |s| && w.starter < |w.out| &&
             -1 <= v.starter < |v.out|
    requires Together(ccc, s, i, w, v)
    ensures Together(ccc, s, i + 1, ComposeStep(ccc, comp, w, s[i]), StrictStep(ccc, comp, v, s[i]))
  {
    if v.starter < 0 {
      assert w.out[0] == s[0];
      assert s[..i] + [s[i]] == s[..i + 1];
      assert ccc(s[0]) > 0;
      if ccc(s[i]) != 0 { assert OneRun(ccc, s, 0, i) && ccc(s[0]) <= ccc(s[i]); }
      assert StayApart(ccc, comp, s[0], s[i]);
    }
  }

  lemma {:induction false} FoldsTogether(ccc: Ccc, comp: Compose, s: seq<Cp>, i: nat)
    requires RunsSorted(ccc, s) && MarksStayApart(ccc, comp) && 0 < i <= |s|
    ensures Together(ccc, s, i, Composed(ccc, comp, s[..i]), StrictComposed(ccc, comp, s[..i]))
  {
    if i > 1 {
      FoldsTogether(ccc, comp, s, i - 1);
      NextComposed(ccc, comp, s, i - 1);
      NextStrict(ccc, comp, s, i - 1);
      StepTogether(ccc, comp, s, i - 1, Composed(ccc, comp, s[..i - 1]), StrictComposed(ccc, comp, s[..i - 1]));
    } else {
      FirstTogether(ccc, comp, s);
    }
  }

  lemma FirstTogether(ccc: Ccc, comp: Compose, s: seq<Cp>)
    requires s != []
    ensures Together(ccc, s, 1, Composed(ccc, comp, s[..1]), StrictComposed(ccc, comp, s[..1]))
  {
    assert s[..1] == [s[0]];
  }

  lemma NextStrict(ccc: Ccc, comp: Compose, s: seq<Cp>, i: nat)
    requires 0 < i < |s|
    ensures StrictComposed(ccc, comp, s[..i + 1]) == StrictStep(ccc, comp, StrictComposed(ccc, comp, s[..i]), s[i])
  {
    assert s[..i + 1][..i] == s[..i];
  }

  lemma SafeAgree(ccc: Ccc, comp: Compose, s: seq<Cp>)
    requires MarksStayApart(ccc, comp) && s != [] && RunsSorted(ccc, s)
    ensures Composed(ccc, comp, s).out == StrictComposed(ccc, comp, s).out
  {
    FoldsTogether(ccc, comp, s, |s|);
    assert s[..|s|] == s;
  }

  ghost predicate Agree(ccc: Ccc, comp: Compose, s: seq<Cp>)
    requires s != []
  {
    Composed(ccc, comp, s).out == StrictComposed(ccc, comp, s).out
  }

  /** Taking the first code point for a starter makes no difference on any input in canonical order exactly
      when no mark of the tables composes with a starter or with a mark of its own or a higher class. */
  lemma FirstAsStarterExactly(ccc: Ccc, comp: Compose)
    ensures (forall s: seq<Cp> :: s != [] && RunsSorted(ccc, s) ==> Agree(ccc, comp, s)) <==> MarksStayApart(ccc, comp)
  {
    if MarksStayApart(ccc, comp) {
      forall s: seq<Cp> | s != [] && RunsSorted(ccc, s) ensures Agree(ccc, comp, s) { SafeAgree(ccc, comp, s); }
    } else {
      var a: Cp, b: Cp :| !StayApart(ccc, comp, a, b);
      LeadingMarkComposes(ccc, comp, a, b);
      assert !Agree(ccc, comp, [a, b]);
    }
  }
}
