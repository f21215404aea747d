/** The string operations of the runtime that the text edits rely on. */
module Strings {
  import opened Common

  /** Every CRLF replaced by LF, that is, every CR dropped that an LF follows. */
  function Fold(s: string): string {
    if s == [] then []
    else (if s[0] == '\r' && StartsWith(s[1..], '\n') then [] else [s[0]]) + Fold(s[1..])
  }

  predicate EndsWith(s: string, c: char) {
    s != [] && s[|s| - 1] == c
  }

  predicate StartsWith(s: string, c: char) {
    s != [] && s[0] == c
  }

  lemma {:induction false} FoldConcat(a: string, b: string)
    requires !(EndsWith(a, '\r') && StartsWith(b, '\n'))
    ensures Fold(a + b) == Fold(a) + Fold(b)
  {
    if a == [] {
      assert a + b == b;
    } else {
      assert (a + b)[1..] == a[1..] + b;
      FoldConcat(a[1..], b);
    }
  }

  lemma Associative(a: string, b: string, c: string)
    ensures (a + b) + c == a + (b + c)
  {
  }

  predicate HasCrlf(s: string) {
    |s| >= 2 && ((s[0] == '\r' && s[1] == '\n') || HasCrlf(s[1..]))
  }

  /** A CRLF that another CR comes before. */
  predicate HasReturnCrlf(s: string) {
    |s| >= 3 && ((s[0] == '\r' && s[1] == '\r' && s[2] == '\n') || HasReturnCrlf(s[1..]))
  }

  lemma {:induction false} NoReturnNoCrlf(s: string)
    requires '\r' !in s
    ensures !HasCrlf(s)
  {
    if s != [] {
      NoReturnNoCrlf(s[1..]);
    }
  }

  /** Every CR is followed by an LF. */
  predicate NoLoneReturn(s: string) {
    s == [] || ((s[0] == '\r' ==> StartsWith(s[1..], '\n')) && NoLoneReturn(s[1..]))
  }

  lemma {:induction false} NoLoneReturnIsFoldable(s: string)
    requires NoLoneReturn(s)
    ensures !HasReturnCrlf(s) && !EndsWith(s, '\r')
  {
    if s != [] {
      NoLoneReturnIsFoldable(s[1..]);
    }
  }

  /** Every line end of the event stream format, CRLF, LF or a lone CR, made an LF. */
  function FoldAll(s: string): string {
    if s == [] then []
    else if s[0] != '\r' then [s[0]] + FoldAll(s[1..])
    else (if StartsWith(s[1..], '\n') then [] else ['\n']) + FoldAll(s[1..])
  }

  /** Folding CRLF alone is enough exactly for the texts without a lone CR. */
  lemma {:induction false} FoldsAgree(s: string)
    ensures |FoldAll(s)| == |Fold(s)|
    ensures FoldAll(s) == Fold(s) <==> NoLoneReturn(s)
  {
    if s != [] {
      FoldsAgree(s[1..]);
      if s[0] == '\r' && StartsWith(s[1..], '\n') {
        assert FoldAll(s) == FoldAll(s[1..]) && Fold(s) == Fold(s[1..]);
      } else {
        assert FoldAll(s)[1..] == FoldAll(s[1..]) && Fold(s)[1..] == Fold(s[1..]);
      }
    }
  }

  lemma {:induction false} FoldAllPlain(a: string, b: string)
    requires '\r' !in a
    ensures FoldAll(a + b) == a + FoldAll(b)
  {
    if a == [] {
      assert a + b == b;
    } else {
      assert (a + b)[1..] == a[1..] + b;
      FoldAllPlain(a[1..], b);
    }
  }

  lemma FoldAllOfPlain(a: string)
    requires '\r' !in a
    ensures FoldAll(a) == a
  {
    FoldAllPlain(a, "");
    assert a + "" == a;
  }

  lemma FoldAllReturn(s: string)
    requires !StartsWith(s, '\n')
    ensures FoldAll("\r" + s) == "\n" + FoldAll(s)
  {
    assert ("\r" + s)[1..] == s;
  }

  /** Folding changes exactly the texts with a CRLF. */
  lemma {:induction false} FoldFixed(s: string)
    ensures |Fold(s)| <= |s|
    ensures Fold(s) == s <==> !HasCrlf(s)
  {
    if s != [] {
      FoldFixed(s[1..]);
      assert s == [s[0]] + s[1..];
    }
  }

  /** One folding makes a CRLF of a CR and a CRLF. */
  lemma {:induction false} FoldTwice(s: string)
    ensures HasCrlf(Fold(s)) <==> HasReturnCrlf(s)
  {
    if s != [] {
      FoldTwice(s[1..]);
      FoldStarts(s[1..]);
      assert Fold(s) == Fold(s[1..]) || Fold(s)[1..] == Fold(s[1..]);
    }
  }

  lemma FoldStarts(s: string)
    ensures StartsWith(Fold(s), '\n') <==>
      StartsWith(s, '\n') || (|s| >= 2 && s[0] == '\r' && s[1] == '\n')
  {
  }

  lemma {:induction false} FoldKeepsEnd(s: string)
    ensures forall c :: EndsWith(Fold(s), c) <==> EndsWith(s, c)
  {
    if |s| > 1 {
      FoldKeepsEnd(s[1..]);
      assert EndsWith(s[1..], s[|s| - 1]);
    }
  }

  lemma {:induction false} CrlfBeforeNewline(s: string)
    ensures HasCrlf(s + "\n") <==> HasCrlf(s) || EndsWith(s, '\r')
  {
    if s != [] {
      CrlfBeforeNewline(s[1..]);
      assert (s + "\n")[1..] == s[1..] + "\n";
    }
  }

  predicate OccursAt(text: string, sub: string, i: nat) {
    i + |sub| <= |text| && text[i..i + |sub|] == sub
  }

  /** The leftmost occurrence of `sub` at or after `from`. */
  function IndexOf(text: string, sub: string, from: nat): (i: Option<nat>)
    ensures i.Some? ==> from <= i.value && i.value + |sub| <= |text|
    decreases if from <= |text| then |text| + 1 - from else 0
  {
    if from + |sub| > |text| then None
    else if text[from..from + |sub|] == sub then Some(from)
    else IndexOf(text, sub, from + 1)
  }

  lemma {:induction false} IndexIsAnOccurrence(text: string, sub: string, from: nat)
    ensures
      var i := IndexOf(text, sub, from);
      && (i.Some? ==> OccursAt(text, sub, i.value))
      && (forall k: nat :: from <= k && (i.Some? ==> k < i.value) ==> !OccursAt(text, sub, k))
    decreases if from <= |text| then |text| + 1 - from else 0
  {
    if from + |sub| <= |text| && text[from..from + |sub|] != sub {
      IndexIsAnOccurrence(text, sub, from + 1);
    }
  }

  predicate Has(text: string, sub: string) {
    IndexOf(text, sub, 0).Some?
  }

  /** The leftmost occurrence is found wherever the search starts before it. */
  lemma IndexIsLeftmost(text: string, sub: string, from: nat, i: nat)
    requires from <= i && OccursAt(text, sub, i)
    requires forall k: nat :: from <= k < i ==> !OccursAt(text, sub, k)
    ensures IndexOf(text, sub, from) == Some(i)
  {
    IndexIsAnOccurrence(text, sub, from);
  }

  lemma AbsentIsNone(text: string, sub: string, from: nat)
    requires forall k: nat :: from <= k ==> !OccursAt(text, sub, k)
    ensures IndexOf(text, sub, from) == None
  {
    IndexIsAnOccurrence(text, sub, from);
  }

  lemma OccursInPrefix(text: string, more: string, sub: string, i: nat)
    requires i + |sub| <= |text|
    ensures OccursAt(text + more, sub, i) == OccursAt(text, sub, i)
  {
    assert (text + more)[i..i + |sub|] == text[i..i + |sub|];
  }

  /** What comes after the leftmost occurrence does not matter. */
  lemma IndexInPrefix(text: string, more: string, sub: string)
    requires IndexOf(text, sub, 0).Some?
    ensures IndexOf(text + more, sub, 0) == IndexOf(text, sub, 0)
  {
    var i := IndexOf(text, sub, 0).value;
    IndexIsAnOccurrence(text, sub, 0);
    OccursInPrefix(text, more, sub, i);
    forall k: nat | k < i ensures !OccursAt(text + more, sub, k) {
      OccursInPrefix(text, more, sub, k);
    }
    IndexIsLeftmost(text + more, sub, 0, i);
  }
}
