/** The string order that `OrderBy(m => m.CarModel)` sorts model names by.
    .NET's default comparer is culture-sensitive; this model stands in for
    it with case-insensitive alphabetical order, ties broken ordinally. On
    the four canonical names it gives Offroad, Sedan, Sport, SUV. */
module NameOrder {
  import opened DotNetText

  /** Ordinal (code point) lexicographic order. */
  predicate LexLess(a: string, b: string) {
    if a == [] then b != []
    else if b == [] then false
    else if a[0] != b[0] then a[0] < b[0]
    else LexLess(a[1..], b[1..])
  }

  lemma {:induction false} LexLessIrreflexive(a: string)
    ensures !LexLess(a, a)
  {
    if a != [] { LexLessIrreflexive(a[1..]); }
  }

  lemma {:induction false} LexLessTransitive(a: string, b: string, c: string)
    requires LexLess(a, b) && LexLess(b, c)
    ensures LexLess(a, c)
  {
    if a != [] && a[0] == b[0] && b[0] == c[0] {
      LexLessTransitive(a[1..], b[1..], c[1..]);
    }
  }

  lemma {:induction false} LexLessTotal(a: string, b: string)
    requires a != b
    ensures LexLess(a, b) || LexLess(b, a)
  {
    if a != [] && b != [] && a[0] == b[0] {
      assert a == [a[0]] + a[1..] && b == [b[0]] + b[1..];
      LexLessTotal(a[1..], b[1..]);
    }
  }

  function Fold(s: string): (f: string)
    ensures |f| == |s|
    ensures forall i | 0 <= i < |s| :: f[i] == ToLowerAscii(s[i])
  {
    if s == [] then [] else [ToLowerAscii(s[0])] + Fold(s[1..])
  }

  /** The name comparer: folded order first, then ordinal order. */
  predicate NameLess(a: string, b: string) {
    LexLess(Fold(a), Fold(b)) || (Fold(a) == Fold(b) && LexLess(a, b))
  }

  lemma NameLessIrreflexive(a: string)
    ensures !NameLess(a, a)
  {
    LexLessIrreflexive(a);
    LexLessIrreflexive(Fold(a));
  }

  lemma NameLessTransitive(a: string, b: string, c: string)
    requires NameLess(a, b) && NameLess(b, c)
    ensures NameLess(a, c)
  {
    if LexLess(Fold(a), Fold(b)) && LexLess(Fold(b), Fold(c)) {
      LexLessTransitive(Fold(a), Fold(b), Fold(c));
    } else if Fold(a) == Fold(b) && Fold(b) == Fold(c) {
      LexLessTransitive(a, b, c);
    }
  }

  lemma NameLessTotal(a: string, b: string)
    requires a != b
    ensures NameLess(a, b) || NameLess(b, a)
  {
    if Fold(a) != Fold(b) {
      LexLessTotal(Fold(a), Fold(b));
    } else {
      LexLessTotal(a, b);
    }
  }
}
