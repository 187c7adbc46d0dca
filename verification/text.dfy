/** String comparisons used by the model's queries: the ordering of `ORDER BY symbol`
    and the substring test of `LIKE '%needle%'`. Characters compare by code point. */
module Text {
  import opened Sorting

  /** Lexicographic "no later than" on strings. */
  predicate LexLe(a: string, b: string)
    decreases |a|
  {
    |a| == 0 ||
    (|b| > 0 && (a[0] < b[0] || (a[0] == b[0] && LexLe(a[1..], b[1..]))))
  }

  lemma {:induction false} LexLeTotal(a: string, b: string)
    ensures LexLe(a, b) || LexLe(b, a)
    decreases |a|
  {
    if |a| > 0 && |b| > 0 && a[0] == b[0] {
      LexLeTotal(a[1..], b[1..]);
    }
  }

  lemma {:induction false} LexLeTransitive(a: string, b: string, c: string)
    requires LexLe(a, b) && LexLe(b, c)
    ensures LexLe(a, c)
    decreases |a|
  {
    if |a| > 0 && a[0] == b[0] && b[0] == c[0] {
      LexLeTransitive(a[1..], b[1..], c[1..]);
    }
  }

  lemma {:induction false} LexLeAntisymmetric(a: string, b: string)
    requires LexLe(a, b) && LexLe(b, a)
    ensures a == b
    decreases |a|
  {
    if |a| > 0 {
      LexLeAntisymmetric(a[1..], b[1..]);
      assert a == [a[0]] + a[1..] && b == [b[0]] + b[1..];
    }
  }

  /** Orders values by a text key, as `ORDER BY` on a text column does. */
  function ByLex<T>(key: T -> string): (T, T) -> bool {
    (a: T, b: T) => LexLe(key(a), key(b))
  }

  lemma ByLexIsTotalPreorder<T(!new)>(key: T -> string)
    ensures TotalPreorder(ByLex(key))
  {
    var le := ByLex(key);
    forall a: T, b: T ensures le(a, b) || le(b, a) {
      LexLeTotal(key(a), key(b));
    }
    forall a: T, b: T, c: T | le(a, b) && le(b, c) ensures le(a, c) {
      LexLeTransitive(key(a), key(b), key(c));
    }
  }

  /** `needle` occurs in `hay` at some offset: what `hay LIKE '%needle%'` tests when
      `needle` holds no wildcard character. */
  predicate Contains(hay: string, needle: string) {
    exists i :: 0 <= i <= |hay| - |needle| && OccursAt(hay, needle, i)
  }

  predicate OccursAt(hay: string, needle: string, i: int) {
    0 <= i <= |hay| - |needle| && hay[i..i + |needle|] == needle
  }

  lemma ContainsItself(s: string, prefix: string, suffix: string)
    ensures Contains(prefix + s + suffix, s)
  {
    var h := prefix + s + suffix;
    assert h[|prefix|..|prefix| + |s|] == s;
    assert OccursAt(h, s, |prefix|);
  }
}
