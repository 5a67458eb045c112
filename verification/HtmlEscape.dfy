/** The newsletter's HTML escaping: five global replacements, one after the other. */
module HtmlEscape {
  import opened Utf16

  const AMP: CodeUnit := 38
  const LT: CodeUnit := 60
  const GT: CodeUnit := 62
  const QUOT: CodeUnit := 34
  const APOS: CodeUnit := 39

  /** "&amp;", "&lt;", "&gt;", "&quot;", "&#39;" */
  const AMP_ENTITY: Text := [38, 97, 109, 112, 59]
  const LT_ENTITY: Text := [38, 108, 116, 59]
  const GT_ENTITY: Text := [38, 103, 116, 59]
  const QUOT_ENTITY: Text := [38, 113, 117, 111, 116, 59]
  const APOS_ENTITY: Text := [38, 35, 51, 57, 59]

  lemma EntitiesSpell()
    ensures Spells([AMP, LT, GT, QUOT, APOS], "&<>\"'")
    ensures Spells(AMP_ENTITY, "&amp;") && Spells(LT_ENTITY, "&lt;") && Spells(GT_ENTITY, "&gt;")
    ensures Spells(QUOT_ENTITY, "&quot;") && Spells(APOS_ENTITY, "&#39;")
  {
  }

  /** text.replace(/c/g, entity) */
  function Replace(t: Text, c: CodeUnit, entity: Text): Text {
    if t == [] then [] else (if t[0] == c then entity else [t[0]]) + Replace(t[1..], c, entity)
  }

  /** The body renderHtml puts between its tags. */
  function EscapedBody(t: Text): Text {
    Replace(Replace(Replace(Replace(Replace(t, AMP, AMP_ENTITY), LT, LT_ENTITY), GT, GT_ENTITY), QUOT, QUOT_ENTITY), APOS, APOS_ENTITY)
  }

  // ---- reference: each character on its own ----

  function Entity(c: CodeUnit): Text {
    if c == AMP then AMP_ENTITY
    else if c == LT then LT_ENTITY
    else if c == GT then GT_ENTITY
    else if c == QUOT then QUOT_ENTITY
    else if c == APOS then APOS_ENTITY
    else [c]
  }

  function Escape(t: Text): Text {
    if t == [] then [] else Entity(t[0]) + Escape(t[1..])
  }

  lemma {:induction false} ReplaceConcat(a: Text, b: Text, c: CodeUnit, entity: Text)
    ensures Replace(a + b, c, entity) == Replace(a, c, entity) + Replace(b, c, entity)
  {
    if a == [] {
      Nothing(b);
    } else {
      ReplaceConcat(a[1..], b, c, entity);
      DropFirst(a, b);
      Assoc(if a[0] == c then entity else [a[0]], Replace(a[1..], c, entity), Replace(b, c, entity));
    }
  }

  lemma {:induction false} ReplaceAbsent(t: Text, c: CodeUnit, entity: Text)
    requires c !in t
    ensures Replace(t, c, entity) == t
  {
    if t == [] {
    } else {
      ReplaceAbsent(t[1..], c, entity);
      assert t == [t[0]] + t[1..];
    }
  }

  lemma ReplaceOne(c: CodeUnit, entity: Text)
    ensures Replace([c], c, entity) == entity
  {
    assert [c][1..] == [];
    Nothing(entity);
  }

  lemma BodyConcat(a: Text, b: Text)
    ensures EscapedBody(a + b) == EscapedBody(a) + EscapedBody(b)
  {
    hide Replace;
    var a1, b1 := Replace(a, AMP, AMP_ENTITY), Replace(b, AMP, AMP_ENTITY);
    ReplaceConcat(a, b, AMP, AMP_ENTITY);
    ReplaceConcat(a1, b1, LT, LT_ENTITY);
    var a2, b2 := Replace(a1, LT, LT_ENTITY), Replace(b1, LT, LT_ENTITY);
    ReplaceConcat(a2, b2, GT, GT_ENTITY);
    var a3, b3 := Replace(a2, GT, GT_ENTITY), Replace(b2, GT, GT_ENTITY);
    ReplaceConcat(a3, b3, QUOT, QUOT_ENTITY);
    ReplaceConcat(Replace(a3, QUOT, QUOT_ENTITY), Replace(b3, QUOT, QUOT_ENTITY), APOS, APOS_ENTITY);
  }

  /** Only the ampersand's entity meets further replacements, and none of them finds anything in it. */
  lemma BodyOfOne(c: CodeUnit)
    ensures EscapedBody([c]) == Entity(c)
  {
    hide Replace;
    var t := [c];
    if c == AMP { ReplaceOne(AMP, AMP_ENTITY); t := AMP_ENTITY; } else { ReplaceAbsent(t, AMP, AMP_ENTITY); }
    if c == LT { ReplaceOne(LT, LT_ENTITY); t := LT_ENTITY; } else { ReplaceAbsent(t, LT, LT_ENTITY); }
    if c == GT { ReplaceOne(GT, GT_ENTITY); t := GT_ENTITY; } else { ReplaceAbsent(t, GT, GT_ENTITY); }
    if c == QUOT { ReplaceOne(QUOT, QUOT_ENTITY); t := QUOT_ENTITY; } else { ReplaceAbsent(t, QUOT, QUOT_ENTITY); }
    if c == APOS { ReplaceOne(APOS, APOS_ENTITY); t := APOS_ENTITY; } else { ReplaceAbsent(t, APOS, APOS_ENTITY); }
    assert t == Entity(c);
  }

  /** The five replacements in sequence are one simultaneous escape. */
  lemma {:induction false} SequenceIsSimultaneous(t: Text)
    ensures EscapedBody(t) == Escape(t)
  {
    if t == [] {
    } else {
      SequenceIsSimultaneous(t[1..]);
      BodyOfOne(t[0]);
      BodyConcat([t[0]], t[1..]);
      assert t == [t[0]] + t[1..];
    }
  }

  // ---- nothing dangerous is left, and nothing is lost ----

  predicate Raw(c: CodeUnit) {
    c == LT || c == GT || c == QUOT || c == APOS
  }

  lemma {:induction false} NoRawCharacters(t: Text)
    ensures forall c <- EscapedBody(t) :: !Raw(c)
  {
    SequenceIsSimultaneous(t);
    NoRawInEscape(t);
  }

  lemma {:induction false} NoRawInEscape(t: Text)
    ensures forall c <- Escape(t) :: !Raw(c)
  {
    if t == [] {
    } else {
      NoRawInEscape(t[1..]);
    }
  }

  /** Reads the entities back, from the left. */
  function Unescape(t: Text): Text {
    if t == [] then []
    else if AMP_ENTITY <= t then [AMP] + Unescape(t[|AMP_ENTITY|..])
    else if LT_ENTITY <= t then [LT] + Unescape(t[|LT_ENTITY|..])
    else if GT_ENTITY <= t then [GT] + Unescape(t[|GT_ENTITY|..])
    else if QUOT_ENTITY <= t then [QUOT] + Unescape(t[|QUOT_ENTITY|..])
    else if APOS_ENTITY <= t then [APOS] + Unescape(t[|APOS_ENTITY|..])
    else [t[0]] + Unescape(t[1..])
  }

  lemma NoPrefix(e: Text, t: Text)
    requires |e| >= 2 && |t| >= 1
    ensures t[0] != e[0] || (|t| >= 2 && t[1] != e[1]) ==> !(e <= t)
  {
  }

  /** The entities differ in their second character, so only the right one is read. */
  lemma UnescapeEntity(c: CodeUnit, rest: Text)
    requires |Entity(c)| >= 2
    ensures Unescape(Entity(c) + rest) == [c] + Unescape(rest)
  {
    var e := Entity(c);
    var t := e + rest;
    assert t[|e|..] == rest && e <= t && t[0] == e[0] && t[1] == e[1];
    if c != AMP { NoPrefix(AMP_ENTITY, t); }
    if c != LT { NoPrefix(LT_ENTITY, t); }
    if c != GT { NoPrefix(GT_ENTITY, t); }
    if c != QUOT { NoPrefix(QUOT_ENTITY, t); }
  }

  lemma UnescapePlain(c: CodeUnit, rest: Text)
    requires c != AMP
    ensures Unescape([c] + rest) == [c] + Unescape(rest)
  {
    DropFirst([c], rest);
    Nothing(rest);
    var t := [c] + rest;
    NoPrefix(AMP_ENTITY, t);
    NoPrefix(LT_ENTITY, t);
    NoPrefix(GT_ENTITY, t);
    NoPrefix(QUOT_ENTITY, t);
    NoPrefix(APOS_ENTITY, t);
  }

  lemma {:induction false} UnescapeUndoes(t: Text)
    ensures Unescape(EscapedBody(t)) == t
  {
    SequenceIsSimultaneous(t);
    if t == [] {
    } else {
      SequenceIsSimultaneous(t[1..]);
      UnescapeUndoes(t[1..]);
      if |Entity(t[0])| >= 2 { UnescapeEntity(t[0], Escape(t[1..])); } else { UnescapePlain(t[0], Escape(t[1..])); }
      assert t == [t[0]] + t[1..];
    }
  }

  /** So different texts render differently. */
  lemma EscapeInjective(t: Text, u: Text)
    requires EscapedBody(t) == EscapedBody(u)
    ensures t == u
  {
    UnescapeUndoes(t);
    UnescapeUndoes(u);
  }
}
