/**
 * Python compares `str` values code point by code point, and a proper prefix
 * sorts first. `max` over the keys of the store uses this order, not the
 * numeric one, so "9" is greater than "10".
 */
module LexOrder {

  /** `a <= b` on Python strings: in particular a prefix is at most the whole. */
  function LexLe(a: string, b: string): (r: bool)
    ensures a <= b ==> r
    decreases |a|
  {
    |a| == 0 || (|b| > 0 && (a[0] < b[0] || (a[0] == b[0] && LexLe(a[1..], b[1..]))))
  }

  /** `a[..i]` and `b[..i]` agree and `a[i] < b[i]`: `i` is where `a` sorts first. */
  predicate FirstDifference(a: string, b: string, i: nat) {
    i < |a| && i < |b| && a[..i] == b[..i] && a[i] < b[i]
  }

  /**
   * The order is the one Python documents: `a <= b` exactly when `a` is a
   * prefix of `b` or the first character where they differ is smaller in `a`.
   */
  lemma {:induction false} LexLeFirstDifference(a: string, b: string)
    ensures LexLe(a, b) <==> a <= b || exists i: nat :: FirstDifference(a, b, i)
    decreases |a|
  {
    if |a| > 0 && |b| > 0 {
      if a[0] < b[0] {
        assert FirstDifference(a, b, 0);
      } else if a[0] > b[0] {
        assert forall i: nat :: !FirstDifference(a, b, i);
      } else {
        LexLeFirstDifference(a[1..], b[1..]);
        assert a == [a[0]] + a[1..] && b == [b[0]] + b[1..];
        assert a <= b <==> a[1..] <= b[1..];
        if i: nat :| FirstDifference(a[1..], b[1..], i) {
          assert a[..i + 1] == [a[0]] + a[1..][..i];
          assert b[..i + 1] == [b[0]] + b[1..][..i];
          assert FirstDifference(a, b, i + 1);
        }
        if i: nat :| FirstDifference(a, b, i) {
          assert i > 0;
          assert a[1..][..i - 1] == a[..i][1..] && b[1..][..i - 1] == b[..i][1..];
          assert FirstDifference(a[1..], b[1..], i - 1);
        }
      }
    } else if |a| > 0 {
      assert forall i: nat :: !FirstDifference(a, b, i);
    }
  }

  /** `a < b` on Python strings. */
  predicate LexLess(a: string, b: string) {
    LexLe(a, b) && a != b
  }

  lemma {:induction false} LexLeReflexive(a: string)
    ensures LexLe(a, a)
    decreases |a|
  {
    if |a| > 0 {
      LexLeReflexive(a[1..]);
    }
  }

  lemma {:induction false} LexLeTotal(a: string, b: string)
    ensures LexLe(a, b) || LexLe(b, a)
    decreases |a|
  {
    if |a| > 0 && |b| > 0 && a[0] == b[0] {
      LexLeTotal(a[1..], b[1..]);
    }
  }

  lemma {:induction false} LexLeAntisymmetric(a: string, b: string)
    requires LexLe(a, b) && LexLe(b, a)
    ensures a == b
    decreases |a|
  {
    if |a| > 0 {
      LexLeAntisymmetric(a[1..], b[1..]);
      assert a == [a[0]] + a[1..] && b == [b[0]] + b[1..];
    }
  }

  lemma {:induction false} LexLeTransitive(a: string, b: string, c: string)
    requires LexLe(a, b) && LexLe(b, c)
    ensures LexLe(a, c)
    decreases |a|
  {
    if |a| > 0 && a[0] == b[0] && b[0] == c[0] {
      LexLeTransitive(a[1..], b[1..], c[1..]);
    }
  }

  /** On one-character strings the order is the order of the characters. */
  lemma SingleCharLexLe(a: string, b: string)
    requires |a| == 1 && |b| == 1
    ensures LexLe(a, b) <==> a[0] <= b[0]
  {
  }

  /**
   * `max(keys)`: Python scans from the front and replaces the running maximum
   * only by a strictly greater element.
   */
  function LexMax(s: seq<string>): (m: string)
    requires |s| > 0
    ensures m in s
    decreases |s|
  {
    if |s| == 1 then s[0]
    else
      var m := LexMax(s[..|s| - 1]);
      if LexLess(m, s[|s| - 1]) then s[|s| - 1] else m
  }

  /** The result of `LexMax` is greater than or equal to every element. */
  lemma {:induction false} LexMaxIsGreatest(s: seq<string>)
    requires |s| > 0
    ensures forall x :: x in s ==> LexLe(x, LexMax(s))
    decreases |s|
  {
    if |s| == 1 {
      LexLeReflexive(s[0]);
    } else {
      var init, last := s[..|s| - 1], s[|s| - 1];
      assert s == init + [last];
      LexMaxIsGreatest(init);
      var m := LexMax(init);
      if LexLess(m, last) {
        forall x | x in init ensures LexLe(x, last) {
          LexLeTransitive(x, m, last);
        }
        LexLeReflexive(last);
      } else {
        LexLeTotal(m, last);
        if m == last {
          LexLeReflexive(last);
        }
      }
    }
  }

}
