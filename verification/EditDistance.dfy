/**
 Edit distance. The program fills a table and, when two characters match, takes the
 diagonal cell without comparing it to its neighbours. The reference notion here is
 independent of any table: a distance is the cost of a cheapest edit script.
 */
module EditDistance {
  import opened Utf16

  /** One step of an edit script, read from left to right over both texts. */
  datatype Edit =
    | Keep(kept: CodeUnit)
    | Insert(added: CodeUnit)
    | Delete(removed: CodeUnit)
    | Substitute(old_: CodeUnit, new_: CodeUnit)

  /** A script, last step outermost, as the table grows prefixes at their end. */
  datatype Script = Done | Then(before: Script, step: Edit)

  function Consumed(e: Edit): Text {
    match e
    case Keep(c) => [c]
    case Insert(_) => []
    case Delete(c) => [c]
    case Substitute(x, _) => [x]
  }

  function Produced(e: Edit): Text {
    match e
    case Keep(c) => [c]
    case Insert(c) => [c]
    case Delete(_) => []
    case Substitute(_, y) => [y]
  }

  function Source(s: Script): Text {
    match s
    case Done => []
    case Then(p, e) => Source(p) + Consumed(e)
  }

  function Target(s: Script): Text {
    match s
    case Done => []
    case Then(p, e) => Target(p) + Produced(e)
  }

  function Cost(s: Script): nat {
    match s
    case Done => 0
    case Then(p, e) => Cost(p) + if e.Keep? then 0 else 1
  }

  ghost predicate Transforms(s: Script, a: Text, b: Text) {
    Source(s) == a && Target(s) == b
  }

  /** d is the cost of a cheapest script from a to b. */
  ghost predicate IsEditDistance(a: Text, b: Text, d: nat) {
    && (exists s :: Transforms(s, a, b) && Cost(s) == d)
    && (forall s :: Transforms(s, a, b) ==> d <= Cost(s))
  }

  function Min(x: nat, y: nat): nat {
    if x <= y then x else y
  }

  /** The recurrence behind the table: the value of the cell for the prefixes a and b. */
  function Distance(a: Text, b: Text): nat
    decreases |a| + |b|
  {
    if a == [] then |b|
    else if b == [] then |a|
    else if Last(a) == Last(b) then Distance(Init(a), Init(b))
    else 1 + Min(Min(Distance(Init(a), b), Distance(a, Init(b))), Distance(Init(a), Init(b)))
  }

  // ---- a script of cost Distance exists ----

  /** A script whose cost is the recurrence's value. */
  function Witness(a: Text, b: Text): (s: Script)
    ensures Transforms(s, a, b) && Cost(s) == Distance(a, b)
    decreases |a| + |b|
  {
    InitLast(a); InitLast(b);
    if a == [] && b == [] then Done
    else if a == [] then Then(Witness(a, Init(b)), Insert(Last(b)))
    else if b == [] then Then(Witness(Init(a), b), Delete(Last(a)))
    else if Last(a) == Last(b) then Then(Witness(Init(a), Init(b)), Keep(Last(a)))
    else if Distance(a, b) == 1 + Distance(Init(a), b) then Then(Witness(Init(a), b), Delete(Last(a)))
    else if Distance(a, b) == 1 + Distance(a, Init(b)) then Then(Witness(a, Init(b)), Insert(Last(b)))
    else Then(Witness(Init(a), Init(b)), Substitute(Last(a), Last(b)))
  }

  lemma InitLast(a: Text)
    ensures a != [] ==> Init(a) + [Last(a)] == a
  {
  }

  // ---- none is cheaper ----

  /** Neighbouring cells differ by at most one; this is what makes the diagonal shortcut optimal. */
  lemma {:induction false} Neighbours(a: Text, b: Text)
    ensures a != [] ==> Distance(Init(a), b) <= Distance(a, b) + 1 && Distance(a, b) <= Distance(Init(a), b) + 1
    ensures b != [] ==> Distance(a, Init(b)) <= Distance(a, b) + 1 && Distance(a, b) <= Distance(a, Init(b)) + 1
    decreases |a| + |b|
  {
    if a == [] || b == [] {
    } else {
      Neighbours(Init(a), b);
      Neighbours(a, Init(b));
      Neighbours(Init(a), Init(b));
    }
  }

  /** One more step costs at least what it adds to the distance. */
  lemma OneStep(a: Text, b: Text, e: Edit)
    ensures Distance(a + Consumed(e), b + Produced(e)) <= Distance(a, b) + if e.Keep? then 0 else 1
  {
    var a', b' := a + Consumed(e), b + Produced(e);
    assert e.Insert? || (Init(a') == a && Last(a') == Last(Consumed(e)));
    assert e.Delete? || (Init(b') == b && Last(b') == Last(Produced(e)));
    if e.Insert? { assert a' == a; }
    if e.Delete? { assert b' == b; }
    Neighbours(a', b');
  }

  lemma {:induction false} NoScriptIsCheaper(s: Script)
    ensures Distance(Source(s), Target(s)) <= Cost(s)
  {
    match s
    case Done =>
    case Then(p, e) =>
      NoScriptIsCheaper(p);
      OneStep(Source(p), Target(p), e);
  }

  lemma DistanceIsEditDistance(a: Text, b: Text)
    ensures IsEditDistance(a, b, Distance(a, b))
  {
    var w := Witness(a, b);
    forall s | Transforms(s, a, b) ensures Distance(a, b) <= Cost(s) {
      NoScriptIsCheaper(s);
    }
  }

  // ---- the table ----

  /** Row i of the table is filled up to, but without, column j. */
  ghost predicate RowFilled(dp: array2<nat>, a: Text, b: Text, i: nat, j: nat)
    requires dp.Length0 == |a| + 1 && dp.Length1 == |b| + 1
    requires i <= |a| && j <= |b| + 1
    reads dp
  {
    forall l :: 0 <= l < j ==> dp[i, l] == Distance(a[..i], b[..l])
  }

  lemma Borders(a: Text, b: Text)
    ensures forall l | 0 <= l <= |b| :: Distance(a[..0], b[..l]) == l
    ensures forall k | 0 <= k <= |a| :: Distance(a[..k], b[..0]) == k
  {
  }

  lemma Cell(a: Text, b: Text, i: nat, j: nat)
    requires 0 < i <= |a| && 0 < j <= |b|
    ensures Distance(a[..i], b[..j]) ==
            if a[i - 1] == b[j - 1] then Distance(a[..i - 1], b[..j - 1])
            else 1 + Min(Min(Distance(a[..i - 1], b[..j]), Distance(a[..i], b[..j - 1])), Distance(a[..i - 1], b[..j - 1]))
  {
    assert Init(a[..i]) == a[..i - 1] && Init(b[..j]) == b[..j - 1];
  }

  method LevenshteinDistance(a: Text, b: Text) returns (d: nat)
    ensures IsEditDistance(a, b, d)
    ensures d == Distance(a, b)
  {
    hide IsEditDistance, Distance;
    Borders(a, b);
    var m, n := |a|, |b|;
    var dp := new nat[m + 1, n + 1]((i: nat, j: nat) => if i == 0 then j else if j == 0 then i else 0);
    for i := 1 to m + 1
      invariant RowFilled(dp, a, b, i - 1, n + 1)
      invariant forall k :: i <= k <= m ==> dp[k, 0] == k
    {
      for j := 1 to n + 1
        invariant RowFilled(dp, a, b, i - 1, n + 1)
        invariant RowFilled(dp, a, b, i, j)
        invariant forall k :: i <= k <= m ==> dp[k, 0] == k
      {
        Cell(a, b, i, j);
        dp[i, j] := if a[i - 1] == b[j - 1] then dp[i - 1, j - 1]
                    else 1 + Min(Min(dp[i - 1, j], dp[i, j - 1]), dp[i - 1, j - 1]);
      }
    }
    assert a[..m] == a && b[..n] == b;
    DistanceIsEditDistance(a, b);
    return dp[m, n];
  }

  // ---- a metric, with tight bounds ----

  function Flip(s: Script): (r: Script)
    ensures Transforms(r, Target(s), Source(s)) && Cost(r) == Cost(s)
  {
    match s
    case Done => Done
    case Then(p, Keep(c)) => Then(Flip(p), Keep(c))
    case Then(p, Insert(c)) => Then(Flip(p), Delete(c))
    case Then(p, Delete(c)) => Then(Flip(p), Insert(c))
    case Then(p, Substitute(x, y)) => Then(Flip(p), Substitute(y, x))
  }

  lemma Symmetric(a: Text, b: Text)
    ensures Distance(a, b) == Distance(b, a)
  {
    NoScriptIsCheaper(Flip(Witness(a, b)));
    NoScriptIsCheaper(Flip(Witness(b, a)));
  }

  /** Two scripts run one after the other, as one script no dearer than both together. */
  function Compose(p: Script, q: Script): (r: Script)
    requires Target(p) == Source(q)
    ensures Transforms(r, Source(p), Target(q)) && Cost(r) <= Cost(p) + Cost(q)
  {
    if p.Then? && p.step.Delete? then Then(Compose(p.before, q), p.step)
    else if q.Then? && q.step.Insert? then Then(Compose(p, q.before), q.step)
    else if p.Done? then q
    else
      assert q.Then?;
      assert Init(Target(p)) == Target(p.before) && Init(Source(q)) == Source(q.before);
      assert Last(Target(p)) == Last(Source(q));
      var r := Compose(p.before, q.before);
      match (p.step, q.step)
      case (Insert(_), Delete(_)) => r
      case (Insert(_), Keep(c)) => Then(r, Insert(c))
      case (Insert(_), Substitute(_, z)) => Then(r, Insert(z))
      case (Keep(_), Delete(x)) => Then(r, Delete(x))
      case (Keep(_), Keep(c)) => Then(r, Keep(c))
      case (Keep(_), Substitute(x, z)) => Then(r, Substitute(x, z))
      case (Substitute(x, _), Delete(_)) => Then(r, Delete(x))
      case (Substitute(x, y), Keep(_)) => Then(r, Substitute(x, y))
      case (Substitute(x, _), Substitute(_, z)) => Then(r, Substitute(x, z))
  }

  lemma Triangle(a: Text, b: Text, c: Text)
    ensures Distance(a, c) <= Distance(a, b) + Distance(b, c)
  {
    NoScriptIsCheaper(Compose(Witness(a, b), Witness(b, c)));
  }

  lemma {:induction false} FreeScriptKeepsAll(s: Script)
    requires Cost(s) == 0
    ensures Source(s) == Target(s)
  {
    match s
    case Done =>
    case Then(p, _) => FreeScriptKeepsAll(p);
  }

  function KeepAll(a: Text): (s: Script)
    ensures Transforms(s, a, a) && Cost(s) == 0
  {
    if a == [] then Done else Then(KeepAll(Init(a)), Keep(Last(a)))
  }

  lemma ZeroIffEqual(a: Text, b: Text)
    ensures Distance(a, b) == 0 <==> a == b
  {
    if a == b { NoScriptIsCheaper(KeepAll(a)); }
    if Distance(a, b) == 0 { FreeScriptKeepsAll(Witness(a, b)); }
  }

  lemma {:induction false} ScriptCoversLengthGap(s: Script)
    ensures |Source(s)| <= |Target(s)| + Cost(s) && |Target(s)| <= |Source(s)| + Cost(s)
  {
    match s
    case Done =>
    case Then(p, _) => ScriptCoversLengthGap(p);
  }

  lemma {:induction false} AtMostLonger(a: Text, b: Text)
    ensures Distance(a, b) <= if |a| >= |b| then |a| else |b|
    decreases |a|
  {
    if a == [] || b == [] {
    } else {
      AtMostLonger(Init(a), Init(b));
    }
  }

  /** abs(|a| - |b|) <= distance <= max(|a|, |b|). */
  lemma Bounds(a: Text, b: Text)
    ensures |a| - |b| <= Distance(a, b) && |b| - |a| <= Distance(a, b)
    ensures Distance(a, b) <= if |a| >= |b| then |a| else |b|
  {
    ScriptCoversLengthGap(Witness(a, b));
    AtMostLonger(a, b);
  }
}
