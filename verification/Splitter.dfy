/**
 The recursive text splitter: try the coarsest separator first, pack its parts greedily, and
 split what is still too long with the finer ones; cut hard when none is left.
 */
module Splitter {
  import opened Utf16
  import opened Wrappers

  // ---- String.split ----

  type Separator = s: Text | s != [] witness [32]

  predicate OccursAt(t: Text, sep: Text, i: nat) {
    i + |sep| <= |t| && t[i..i + |sep|] == sep
  }

  ghost predicate Contains(t: Text, sep: Text) {
    exists i: nat :: OccursAt(t, sep, i)
  }

  function IndexOf(t: Text, sep: Text, from: nat): (r: Option<nat>)
    requires from <= |t|
    ensures r.Some? ==> OccursAt(t, sep, r.value) && forall j | from <= j < r.value :: !OccursAt(t, sep, j)
    ensures r.None? ==> forall j: nat | from <= j :: !OccursAt(t, sep, j)
    decreases |t| - from
  {
    if OccursAt(t, sep, from) then Some(from)
    else if from == |t| then None
    else IndexOf(t, sep, from + 1)
  }

  function SplitOn(t: Text, sep: Separator): (parts: seq<Text>)
    ensures parts != []
    decreases |t|
  {
    match IndexOf(t, sep, 0)
    case None => [t]
    case Some(i) => [t[..i]] + SplitOn(t[i + |sep|..], sep)
  }

  /** Each part with a separator before it. */
  function Tail(parts: seq<Text>, sep: Text): Text {
    if parts == [] then [] else sep + parts[0] + Tail(parts[1..], sep)
  }

  lemma BeforeFirstIsFree(t: Text, sep: Separator)
    ensures match IndexOf(t, sep, 0) { case None => !Contains(t, sep) case Some(i) => !Contains(t[..i], sep) }
  {
    var first := IndexOf(t, sep, 0);
    if first.Some? {
      var i := first.value;
      forall j: nat ensures !OccursAt(t[..i], sep, j) {
        if OccursAt(t[..i], sep, j) {
          assert t[..i][j..j + |sep|] == t[j..j + |sep|];
          assert j < i && OccursAt(t, sep, j);
        }
      }
    }
  }

  lemma CutOut<T>(t: seq<T>, i: nat, n: nat)
    requires i + n <= |t|
    ensures t == t[..i] + (t[i..i + n] + t[i + n..])
  {
  }

  lemma CutAtFirst(t: Text, sep: Separator, i: nat)
    requires IndexOf(t, sep, 0) == Some(i)
    ensures i + |sep| <= |t| && t == t[..i] + (sep + t[i + |sep|..])
  {
    assert OccursAt(t, sep, i);
    CutOut(t, i, |sep|);
  }

  lemma {:induction false} SplitOnParts(t: Text, sep: Separator)
    ensures var parts := SplitOn(t, sep);
            t == parts[0] + Tail(parts[1..], sep) && forall p <- parts :: !Contains(p, sep)
    decreases |t|
  {
    hide Contains, OccursAt;
    BeforeFirstIsFree(t, sep);
    match IndexOf(t, sep, 0)
    case None =>
    case Some(i) =>
      CutAtFirst(t, sep, i);
      var rest := t[i + |sep|..];
      var more := SplitOn(rest, sep);
      SplitOnParts(rest, sep);
      Assoc(sep, more[0], Tail(more[1..], sep));
      assert SplitOn(t, sep) == [t[..i]] + more && ([t[..i]] + more)[1..] == more;
  }

  /** Each part ends where the separator occurs first, which leaves one way to take a text apart. */
  ghost predicate EndsAtFirst(part: Text, sep: Separator) {
    forall j: nat | j < |part| :: !OccursAt(part + sep, sep, j)
  }

  lemma FirstEndsThere(t: Text, sep: Separator, i: nat)
    requires IndexOf(t, sep, 0) == Some(i)
    ensures i + |sep| <= |t| && EndsAtFirst(t[..i], sep)
  {
    assert OccursAt(t, sep, i);
    var part := t[..i];
    var whole := part + sep;
    assert whole == t[..i + |sep|];
    forall j: nat | j < i ensures !OccursAt(whole, sep, j) {
      assert !OccursAt(t, sep, j);
      if j + |sep| <= |whole| { assert whole[j..j + |sep|] == t[j..j + |sep|]; }
    }
  }

  lemma {:induction false} SplitOnIsLeftmost(t: Text, sep: Separator, k: nat)
    requires k < |SplitOn(t, sep)| - 1
    ensures EndsAtFirst(SplitOn(t, sep)[k], sep)
    decreases k
  {
    hide EndsAtFirst, OccursAt;
    var i := IndexOf(t, sep, 0).value;
    FirstEndsThere(t, sep, i);
    if k == 0 {
    } else {
      SplitOnIsLeftmost(t[i + |sep|..], sep, k - 1);
    }
  }

  // ---- what the splitter computes ----

  function HardSplit(t: Text, maxSize: nat): seq<Text>
    requires maxSize >= 1
  {
    if t == [] then []
    else if |t| <= maxSize then [t]
    else [t[..maxSize]] + HardSplit(t[maxSize..], maxSize)
  }

  /** The hard cut takes slices of exactly maxSize, the last one shorter if need be. */
  lemma {:induction false} HardSplitSizes(t: Text, maxSize: nat, k: nat)
    requires maxSize >= 1 && k < |HardSplit(t, maxSize)|
    ensures var parts := HardSplit(t, maxSize); if k < |parts| - 1 then |parts[k]| == maxSize else 0 < |parts[k]| <= maxSize
  {
    if |t| <= maxSize {
    } else if k == 0 {
      assert HardSplit(t[maxSize..], maxSize) != [];
    } else {
      HardSplitSizes(t[maxSize..], maxSize, k - 1);
    }
  }

  function Split(t: Text, separators: seq<Separator>, maxSize: nat): seq<Text>
    requires maxSize >= 1
    decreases |separators|, 1, 0
  {
    if |t| <= maxSize then [t]
    else if separators == [] then HardSplit(t, maxSize)
    else Pack(SplitOn(t, separators[0]), [], separators, maxSize)
  }

  /** What packing the parts, with `current` in hand, still gives out. */
  function Pack(parts: seq<Text>, current: Text, separators: seq<Separator>, maxSize: nat): seq<Text>
    requires maxSize >= 1 && separators != []
    decreases |separators|, 0, |parts|
  {
    if parts == [] then Flush(current)
    else
      var part, rest := parts[0], parts[1..];
      var candidate := if current != [] then current + separators[0] + part else part;
      if |candidate| <= maxSize then Pack(rest, candidate, separators, maxSize)
      else if |part| > maxSize then
        Flush(current) + Split(part, separators[1..], maxSize) + Pack(rest, [], separators, maxSize)
      else Flush(current) + Pack(rest, part, separators, maxSize)
  }

  function Flush(current: Text): seq<Text> {
    if current != [] then [current] else []
  }

  lemma SplitPacks(text: Text, separators: seq<Separator>, maxSize: nat)
    requires maxSize >= 1 && |text| > maxSize && separators != []
    ensures Split(text, separators, maxSize) == Pack(SplitOn(text, separators[0]), [], separators, maxSize)
  {
  }

  lemma PackEnd(parts: seq<Text>, current: Text, separators: seq<Separator>, maxSize: nat)
    requires maxSize >= 1 && separators != []
    ensures Pack(parts[|parts|..], current, separators, maxSize) == Flush(current)
  {
  }

  /** What one turn of the loop gives out, and what it then has in hand. */
  datatype LoopTurn = LoopTurn(out: seq<Text>, current: Text)

  function Turn(part: Text, current: Text, separators: seq<Separator>, maxSize: nat): LoopTurn
    requires maxSize >= 1 && separators != []
  {
    var candidate := if current != [] then current + separators[0] + part else part;
    if |candidate| <= maxSize then LoopTurn([], candidate)
    else if |part| > maxSize then LoopTurn(Flush(current) + Split(part, separators[1..], maxSize), [])
    else LoopTurn(Flush(current), part)
  }

  lemma FlushThen(merged: seq<Text>, current: Text, sub: seq<Text>)
    ensures merged + (Flush(current) + sub) == (if current != [] then merged + [current] else merged) + sub
  {
  }

  /** One turn of the loop, with what was merged so far in front. */
  lemma PackNext(merged: seq<Text>, parts: seq<Text>, k: nat, current: Text, separators: seq<Separator>, maxSize: nat)
    requires maxSize >= 1 && separators != [] && k < |parts|
    ensures var turn := Turn(parts[k], current, separators, maxSize);
            merged + Pack(parts[k..], current, separators, maxSize) ==
            (merged + turn.out) + Pack(parts[k + 1..], turn.current, separators, maxSize)
  {
    hide Split, Flush;
    var turn := Turn(parts[k], current, separators, maxSize);
    assert parts[k..][0] == parts[k] && parts[k..][1..] == parts[k + 1..];
    var rest := Pack(parts[k + 1..], turn.current, separators, maxSize);
    Nothing(rest);
    Assoc(merged, turn.out, rest);
    assert Pack(parts[k..], current, separators, maxSize) == turn.out + rest;
  }

  lemma HardSplitStep(text: Text, i: nat, maxSize: nat)
    requires maxSize >= 1 && i < |text|
    ensures var end := if i + maxSize <= |text| then i + maxSize else |text|;
            HardSplit(text[i..], maxSize) == [text[i..end]] + HardSplit(text[end..], maxSize)
  {
    var rest := text[i..];
    if |rest| > maxSize {
      assert rest[..maxSize] == text[i..i + maxSize] && rest[maxSize..] == text[i + maxSize..];
    } else {
      assert text[|text|..] == [] && text[i..|text|] == rest && [rest] + [] == [rest];
    }
  }

  method CutHard(text: Text, maxSize: nat) returns (parts: seq<Text>)
    requires maxSize >= 1
    ensures parts == HardSplit(text, maxSize)
  {
    parts := [];
    var i := 0;
    while i < |text|
      invariant 0 <= i
      invariant i <= |text| ==> parts + HardSplit(text[i..], maxSize) == HardSplit(text, maxSize)
      invariant i > |text| ==> parts == HardSplit(text, maxSize)
    {
      var end := if i + maxSize <= |text| then i + maxSize else |text|;
      HardSplitStep(text, i, maxSize);
      Assoc(parts, [text[i..end]], HardSplit(text[end..], maxSize));
      parts := parts + [text[i..end]];
      i := i + maxSize;
    }
  }

  method RecursiveSplit(text: Text, separators: seq<Separator>, maxSize: nat) returns (segments: seq<Text>)
    requires maxSize >= 1
    ensures segments == Split(text, separators, maxSize)
    decreases |separators|
  {
    if |text| <= maxSize {
      return [text];
    }
    if separators == [] {
      segments := CutHard(text, maxSize);
      return;
    }
    hide SplitOn, Pack, Split;
    var sep, remaining := separators[0], separators[1..];
    var parts := SplitOn(text, sep);
    var merged, current := [], [];
    Nothing(Pack(parts, [], separators, maxSize));
    assert parts[0..] == parts;
    for k := 0 to |parts|
      invariant merged + Pack(parts[k..], current, separators, maxSize) == Pack(parts, [], separators, maxSize)
    {
      var part := parts[k];
      PackNext(merged, parts, k, current, separators, maxSize);
      ghost var turn := Turn(part, current, separators, maxSize);
      ghost var before := merged;
      var candidate := if current != [] then current + sep + part else part;
      if |candidate| <= maxSize {
        current := candidate;
        Nothing(merged);
      } else {
        if current != [] { merged := merged + [current]; }
        if |part| > maxSize {
          var sub := RecursiveSplit(part, remaining, maxSize);
          FlushThen(before, current, sub);
          merged := merged + sub;
          current := [];
        } else {
          current := part;
          Nothing(merged);
        }
      }
      assert merged == before + turn.out && current == turn.current;
    }
    PackEnd(parts, current, separators, maxSize);
    if current != [] { merged := merged + [current]; }
    SplitPacks(text, separators, maxSize);
    return merged;
  }

  // ---- layouts: the text as segments and the separators dropped around them ----

  datatype Piece = Segment(text: Text) | Dropped(text: Text)

  function Flat(l: seq<Piece>): Text {
    if l == [] then [] else l[0].text + Flat(l[1..])
  }

  function Segments(l: seq<Piece>): seq<Text> {
    if l == [] then [] else (if l[0].Segment? then [l[0].text] else []) + Segments(l[1..])
  }

  lemma {:induction false} Concat(l: seq<Piece>, m: seq<Piece>)
    ensures Flat(l + m) == Flat(l) + Flat(m) && Segments(l + m) == Segments(l) + Segments(m)
  {
    if l == [] {
      assert l + m == m;
    } else {
      Concat(l[1..], m);
      assert (l + m)[0] == l[0] && (l + m)[1..] == l[1..] + m;
      Assoc(l[0].text, Flat(l[1..]), Flat(m));
      Assoc(if l[0].Segment? then [l[0].text] else [], Segments(l[1..]), Segments(m));
    }
  }

  ghost predicate PiecesOk(l: seq<Piece>, separators: seq<Separator>, maxSize: nat) {
    forall p <- l :: if p.Segment? then 0 < |p.text| <= maxSize else p.text in separators
  }

  ghost predicate Free(t: Text, separators: seq<Separator>) {
    forall s <- separators :: !Contains(t, s)
  }

  /** Piece i starts inside a run of segments longer than maxSize in which no separator occurs. */
  ghost predicate InStretch(l: seq<Piece>, i: nat, separators: seq<Separator>, maxSize: nat) {
    exists a, b :: 0 <= a < i < b <= |l| && IsStretch(l[a..b], separators, maxSize)
  }

  ghost predicate IsStretch(l: seq<Piece>, separators: seq<Separator>, maxSize: nat) {
    (forall p <- l :: p.Segment?) && |Flat(l)| > maxSize && Free(Flat(l), separators)
  }

  /** A cut between two segments that drops nothing happens only where it cannot be avoided. */
  ghost predicate CutsOk(l: seq<Piece>, separators: seq<Separator>, maxSize: nat) {
    forall i | 0 < i < |l| && l[i - 1].Segment? && l[i].Segment? :: InStretch(l, i, separators, maxSize)
  }

  ghost predicate IsLayout(l: seq<Piece>, t: Text, segments: seq<Text>, separators: seq<Separator>, maxSize: nat) {
    && Flat(l) == t && Segments(l) == segments
    && PiecesOk(l, separators, maxSize) && CutsOk(l, separators, maxSize)
  }

  predicate Joins(l: seq<Piece>, m: seq<Piece>) {
    l == [] || m == [] || Last(l).Dropped? || m[0].Dropped?
  }

  lemma LeftStretch(l: seq<Piece>, m: seq<Piece>, i: nat, separators: seq<Separator>, maxSize: nat)
    requires InStretch(l, i, separators, maxSize)
    ensures InStretch(l + m, i, separators, maxSize)
  {
    hide IsStretch;
    var a, b :| 0 <= a < i < b <= |l| && IsStretch(l[a..b], separators, maxSize);
    assert (l + m)[a..b] == l[a..b];
  }

  lemma RightStretch(l: seq<Piece>, m: seq<Piece>, i: nat, separators: seq<Separator>, maxSize: nat)
    requires InStretch(m, i, separators, maxSize)
    ensures InStretch(l + m, |l| + i, separators, maxSize)
  {
    hide IsStretch;
    var a, b :| 0 <= a < i < b <= |m| && IsStretch(m[a..b], separators, maxSize);
    assert (l + m)[|l| + a..|l| + b] == m[a..b];
  }

  lemma ConcatCuts(l: seq<Piece>, m: seq<Piece>, separators: seq<Separator>, maxSize: nat)
    requires CutsOk(l, separators, maxSize) && CutsOk(m, separators, maxSize) && Joins(l, m)
    ensures CutsOk(l + m, separators, maxSize)
  {
    hide InStretch;
    var both := l + m;
    forall i | 0 < i < |both| && both[i - 1].Segment? && both[i].Segment?
      ensures InStretch(both, i, separators, maxSize)
    {
      if i < |l| {
        LeftStretch(l, m, i, separators, maxSize);
      } else {
        RightStretch(l, m, i - |l|, separators, maxSize);
      }
    }
  }

  lemma ConcatLayout(l: seq<Piece>, t: Text, ls: seq<Text>, m: seq<Piece>, u: Text, ms: seq<Text>, separators: seq<Separator>, maxSize: nat)
    requires IsLayout(l, t, ls, separators, maxSize) && IsLayout(m, u, ms, separators, maxSize) && Joins(l, m)
    ensures IsLayout(l + m, t + u, ls + ms, separators, maxSize)
  {
    Concat(l, m);
    ConcatCuts(l, m, separators, maxSize);
  }

  lemma InfixFree(x: Text, y: Text, z: Text, sep: Text)
    requires !Contains(x + y + z, sep)
    ensures !Contains(y, sep)
  {
    forall j: nat ensures !OccursAt(y, sep, j) {
      if OccursAt(y, sep, j) {
        var k := |x| + j;
        assert (x + y + z)[k..k + |sep|] == y[j..j + |sep|];
        assert OccursAt(x + y + z, sep, k);
      }
    }
  }

  lemma SliceFree(l: seq<Piece>, a: nat, b: nat, sep: Text)
    requires a <= b <= |l| && !Contains(Flat(l), sep)
    ensures !Contains(Flat(l[a..b]), sep)
  {
    hide Contains, Flat;
    Concat(l[..a], l[a..b]);
    Concat(l[..b], l[b..]);
    assert l[..a] + l[a..b] == l[..b] && l[..b] + l[b..] == l;
    InfixFree(Flat(l[..a]), Flat(l[a..b]), Flat(l[b..]), sep);
  }

  /** A layout made with the finer separators of a text that lacks the coarser one. */
  lemma CoarserLayout(l: seq<Piece>, t: Text, ls: seq<Text>, separators: seq<Separator>, maxSize: nat)
    requires separators != [] && !Contains(t, separators[0])
    requires IsLayout(l, t, ls, separators[1..], maxSize)
    ensures IsLayout(l, t, ls, separators, maxSize)
  {
    hide Contains, Flat, Segments;
    forall i | 0 < i < |l| && l[i - 1].Segment? && l[i].Segment?
      ensures InStretch(l, i, separators, maxSize)
    {
      assert InStretch(l, i, separators[1..], maxSize);
      var a, b :| 0 <= a < i < b <= |l| && IsStretch(l[a..b], separators[1..], maxSize);
      SliceFree(l, a, b, separators[0]);
      assert IsStretch(l[a..b], separators, maxSize);
    }
  }

  lemma {:induction false} HardSplitLayout(t: Text, maxSize: nat) returns (l: seq<Piece>)
    requires maxSize >= 1
    ensures Flat(l) == t && Segments(l) == HardSplit(t, maxSize)
    ensures PiecesOk(l, [], maxSize) && forall p <- l :: p.Segment?
    decreases |t|
  {
    if |t| <= maxSize {
      l := if t == [] then [] else [Segment(t)];
    } else {
      l := HardSplitLayout(t[maxSize..], maxSize);
      l := [Segment(t[..maxSize])] + l;
      assert l[1..] + [] == l[1..];
    }
  }

  lemma HardSplitCuts(l: seq<Piece>, separators: seq<Separator>, maxSize: nat)
    requires separators == [] && |Flat(l)| > maxSize && forall p <- l :: p.Segment?
    ensures CutsOk(l, separators, maxSize)
  {
    assert l[0..|l|] == l;
    forall i | 0 < i < |l| ensures InStretch(l, i, separators, maxSize) {
      assert IsStretch(l[0..|l|], separators, maxSize);
    }
  }

  lemma One(p: Piece)
    ensures Flat([p]) == p.text && Segments([p]) == if p.Segment? then [p.text] else []
  {
    assert [p][1..] == [] && p.text + [] == p.text && [p.text] + [] == [p.text];
  }

  /** What is in hand, then a dropped separator. */
  lemma FlushLayout(current: Text, sep: Separator, separators: seq<Separator>, maxSize: nat) returns (flushed: seq<Piece>, cut: seq<Piece>)
    requires |current| <= maxSize && sep in separators
    ensures IsLayout(flushed, current, Flush(current), separators, maxSize) && (current == [] ==> flushed == [])
    ensures IsLayout(cut, current + sep, Flush(current), separators, maxSize)
    ensures cut != [] && Last(cut).Dropped? && (current == [] ==> cut[0].Dropped?)
  {
    flushed := if current == [] then [] else [Segment(current)];
    cut := [Dropped(sep)];
    One(Segment(current));
    One(Dropped(sep));
    assert IsLayout(flushed, current, Flush(current), separators, maxSize);
    assert IsLayout(cut, sep, [], separators, maxSize);
    ConcatLayout(flushed, current, Flush(current), cut, sep, [], separators, maxSize);
    cut := flushed + cut;
    assert Flush(current) + [] == Flush(current);
  }

  /**
   The main result. Every text longer than maxSize is its segments in order with separators
   dropped around them; each segment is non-empty and fits; and a cut that drops nothing lies
   inside a separator-free stretch that is itself too long.
   */
  lemma {:induction false} SplitLayout(t: Text, separators: seq<Separator>, maxSize: nat) returns (l: seq<Piece>)
    requires maxSize >= 1 && |t| > maxSize
    ensures IsLayout(l, t, Split(t, separators, maxSize), separators, maxSize)
    decreases |separators|, 1, 0
  {
    if separators == [] {
      l := HardSplitLayout(t, maxSize);
      HardSplitCuts(l, separators, maxSize);
    } else {
      hide IsLayout, SplitOn, Contains;
      var sep, parts := separators[0], SplitOn(t, separators[0]);
      SplitOnParts(t, sep);
      if |parts[0]| > maxSize {
        l := BigPartLayout(parts[0], parts[1..], separators, maxSize);
      } else {
        l := PackLayout(parts[1..], parts[0], separators, maxSize);
      }
      FirstPart(parts, separators, maxSize);
    }
  }

  /** The first part has no separator before it, so nothing is dropped there. */
  lemma FirstPart(parts: seq<Text>, separators: seq<Separator>, maxSize: nat)
    requires maxSize >= 1 && separators != [] && parts != []
    ensures Pack(parts, [], separators, maxSize) ==
            if |parts[0]| > maxSize then Split(parts[0], separators[1..], maxSize) + Pack(parts[1..], [], separators, maxSize)
            else Pack(parts[1..], parts[0], separators, maxSize)
  {
  }

  /** A part too long for one segment, and everything after it. */
  lemma BigPartLayout(part: Text, rest: seq<Text>, separators: seq<Separator>, maxSize: nat) returns (l: seq<Piece>)
    requires maxSize >= 1 && separators != [] && |part| > maxSize && !Contains(part, separators[0])
    requires forall p <- rest :: !Contains(p, separators[0])
    ensures IsLayout(l, part + Tail(rest, separators[0]),
                     Split(part, separators[1..], maxSize) + Pack(rest, [], separators, maxSize), separators, maxSize)
    decreases |separators|, 0, 2 * |rest| + 1
  {
    hide IsLayout, Split, Pack, Tail, Contains;
    var sub := SplitLayout(part, separators[1..], maxSize);
    CoarserLayout(sub, part, Split(part, separators[1..], maxSize), separators, maxSize);
    var more := PackLayout(rest, [], separators, maxSize);
    Nothing(Tail(rest, separators[0]));
    ConcatLayout(sub, part, Split(part, separators[1..], maxSize),
                 more, Tail(rest, separators[0]), Pack(rest, [], separators, maxSize), separators, maxSize);
    l := sub + more;
  }

  lemma {:induction false} PackLayout(parts: seq<Text>, current: Text, separators: seq<Separator>, maxSize: nat) returns (l: seq<Piece>)
    requires maxSize >= 1 && separators != [] && |current| <= maxSize
    requires forall p <- parts :: !Contains(p, separators[0])
    ensures IsLayout(l, current + Tail(parts, separators[0]), Pack(parts, current, separators, maxSize), separators, maxSize)
    ensures current == [] && l != [] ==> l[0].Dropped?
    decreases |separators|, 0, 2 * |parts|
  {
    hide IsLayout, Contains, Split;
    var sep := separators[0];
    var flushed, cut := FlushLayout(current, sep, separators, maxSize);
    if parts == [] {
      l := flushed;
      assert current + [] == current;
    } else {
      var part, rest := parts[0], parts[1..];
      TailAssoc(current, part, rest, sep);
      if current != [] && |current + sep + part| <= maxSize {
        l := PackLayout(rest, current + sep + part, separators, maxSize);
      } else {
        var next;
        ghost var segments;
        if |part| > maxSize {
          next := BigPartLayout(part, rest, separators, maxSize);
          segments := Split(part, separators[1..], maxSize) + Pack(rest, [], separators, maxSize);
        } else {
          next := PackLayout(rest, part, separators, maxSize);
          segments := Pack(rest, part, separators, maxSize);
        }
        PackStep(parts, current, separators, maxSize);
        ConcatLayout(cut, current + sep, Flush(current), next, part + Tail(rest, sep), segments, separators, maxSize);
        l := cut + next;
      }
    }
  }

  lemma TailAssoc(current: Text, part: Text, rest: seq<Text>, sep: Separator)
    ensures current + Tail([part] + rest, sep) == (current + sep + part) + Tail(rest, sep)
    ensures current + Tail([part] + rest, sep) == (current + sep) + (part + Tail(rest, sep))
  {
    assert ([part] + rest)[1..] == rest;
  }

  lemma PackStep(parts: seq<Text>, current: Text, separators: seq<Separator>, maxSize: nat)
    requires maxSize >= 1 && separators != [] && parts != []
    requires current == [] || |current + separators[0] + parts[0]| > maxSize
    ensures Pack(parts, current, separators, maxSize) ==
            Flush(current) + if |parts[0]| > maxSize
              then Split(parts[0], separators[1..], maxSize) + Pack(parts[1..], [], separators, maxSize)
              else Pack(parts[1..], parts[0], separators, maxSize)
  {
  }

  // ---- the packing is greedy ----

  ghost predicate Tight(segments: seq<Text>, sep: Separator, maxSize: nat) {
    forall i | 0 < i < |segments| :: |segments[i - 1]| + |sep| + |segments[i]| > maxSize
  }

  /** Where no part needs splitting further, no two neighbouring segments would fit into one. */
  lemma {:induction false} PackIsTight(parts: seq<Text>, current: Text, separators: seq<Separator>, maxSize: nat)
    requires maxSize >= 1 && separators != [] && forall p <- parts :: |p| <= maxSize
    ensures var r := Pack(parts, current, separators, maxSize);
            Tight(r, separators[0], maxSize) && (current != [] ==> r != [] && |r[0]| >= |current|)
    decreases |parts|
  {
    if parts == [] {
    } else {
      var part, rest := parts[0], parts[1..];
      var candidate := if current != [] then current + separators[0] + part else part;
      if |candidate| <= maxSize {
        PackIsTight(rest, candidate, separators, maxSize);
      } else {
        PackIsTight(rest, part, separators, maxSize);
        var more := Pack(rest, part, separators, maxSize);
        assert Pack(parts, current, separators, maxSize) == [current] + more;
      }
    }
  }

  lemma PackFront(part: Text, rest: seq<Text>, current: Text, separators: seq<Separator>, maxSize: nat)
    requires maxSize >= 1 && separators != []
    ensures var turn := Turn(part, current, separators, maxSize);
            Pack([part] + rest, current, separators, maxSize) == turn.out + Pack(rest, turn.current, separators, maxSize)
  {
    hide Pack, Turn;
    var all, turn := [part] + rest, Turn(part, current, separators, maxSize);
    assert all[0..] == all && all[1..] == rest;
    PackNext([], all, 0, current, separators, maxSize);
    Nothing(Pack(all, current, separators, maxSize));
    Nothing(turn.out);
  }

  /** A part that needs splitting further stands by itself: what is before and after it is packed as if it were alone. */
  lemma {:induction false} PackAtBigPart(
    a: seq<Text>, big: Text, b: seq<Text>, current: Text, separators: seq<Separator>, maxSize: nat)
    requires maxSize >= 1 && separators != [] && |big| > maxSize
    ensures Pack(a + ([big] + b), current, separators, maxSize) ==
            Pack(a, current, separators, maxSize) + (Split(big, separators[1..], maxSize) + Pack(b, [], separators, maxSize))
    decreases |a|
  {
    hide Split, Pack;
    var sub, rest := Split(big, separators[1..], maxSize), Pack(b, [], separators, maxSize);
    if a == [] {
      Nothing([big] + b);
      PackFront(big, b, current, separators, maxSize);
      PackEnd(a, current, separators, maxSize);
      assert a[|a|..] == a;
      Assoc(Flush(current), sub, rest);
    } else {
      hide Turn, Flush;
      var turn := Turn(a[0], current, separators, maxSize);
      PackAtBigPart(a[1..], big, b, turn.current, separators, maxSize);
      PackFront(a[0], a[1..] + ([big] + b), current, separators, maxSize);
      PackFront(a[0], a[1..], current, separators, maxSize);
      assert a == [a[0]] + a[1..];
      Assoc([a[0]], a[1..], [big] + b);
      Assoc(turn.out, Pack(a[1..], turn.current, separators, maxSize), sub + rest);
    }
  }

  lemma SplitIsTight(t: Text, separators: seq<Separator>, maxSize: nat)
    requires maxSize >= 1 && |t| > maxSize && separators != []
    requires forall p <- SplitOn(t, separators[0]) :: |p| <= maxSize
    ensures Tight(Split(t, separators, maxSize), separators[0], maxSize)
  {
    PackIsTight(SplitOn(t, separators[0]), [], separators, maxSize);
  }
}
