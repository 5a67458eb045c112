/** Strings as the program's language has them: sequences of 16-bit code units. */
module Utf16 {
  type CodeUnit = bv16
  type Text = seq<CodeUnit>

  /** The code units are the characters of a literal. */
  predicate Spells(t: Text, s: string) {
    |t| == |s| && forall i | 0 <= i < |t| :: t[i] as int == s[i] as int
  }

  function Last<T>(s: seq<T>): T
    requires s != []
  {
    s[|s| - 1]
  }

  function Init<T>(s: seq<T>): seq<T>
    requires s != []
  {
    s[..|s| - 1]
  }

  lemma Assoc<T>(a: seq<T>, b: seq<T>, c: seq<T>)
    ensures (a + b) + c == a + (b + c)
  {
  }

  lemma Nothing<T>(t: seq<T>)
    ensures [] + t == t && t + [] == t
  {
  }

  lemma DropFirst<T>(a: seq<T>, b: seq<T>)
    requires a != []
    ensures (a + b)[0] == a[0] && (a + b)[1..] == a[1..] + b
  {
  }

  lemma TakeOneMore<T>(s: seq<T>, i: nat)
    requires i < |s|
    ensures s[..i + 1] == s[..i] + [s[i]] && Init(s[..i + 1]) == s[..i] && Last(s[..i + 1]) == s[i]
  {
  }
}
