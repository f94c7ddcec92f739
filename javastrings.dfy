/**
 * The java.lang.String operations the core depends on: split around a
 * one-character separator (dropping trailing empty strings, as
 * String.split(regex) with limit 0 does), ASCII lower-casing, hashCode with
 * 32-bit wrap-around, and containment of a character.
 */
module JavaStrings {

  /** The pieces of s between occurrences of sep, every empty piece kept. */
  function Pieces(s: string, sep: char): (parts: seq<string>)
    ensures |parts| >= 1
    decreases |s|
  {
    if s == [] then [""]
    else
      var rest := Pieces(s[1..], sep);
      if s[0] == sep then [""] + rest
      else [[s[0]] + rest[0]] + rest[1..]
  }

  /** The pieces joined back with sep between neighbours. */
  function Join(parts: seq<string>, sep: char): string
    decreases |parts|
  {
    if parts == [] then ""
    else if |parts| == 1 then parts[0]
    else parts[0] + [sep] + Join(parts[1..], sep)
  }

  /** Removes the empty strings at the end of the list. */
  function DropTrailingEmpty(parts: seq<string>): (r: seq<string>)
    ensures |r| <= |parts| && r == parts[..|r|]
    ensures r == [] || r[|r| - 1] != ""
    ensures forall i :: |r| <= i < |parts| ==> parts[i] == ""
    decreases |parts|
  {
    if parts == [] then []
    else if parts[|parts| - 1] == "" then DropTrailingEmpty(parts[..|parts| - 1])
    else parts
  }

  /**
   * s.split(sep) in Java: the whole string when sep does not occur,
   * otherwise the pieces with trailing empty strings removed.
   */
  function Split(s: string, sep: char): seq<string>
  {
    if sep !in s then [s] else DropTrailingEmpty(Pieces(s, sep))
  }

  /** n copies of c. */
  function Repeat(c: char, n: nat): (r: string)
    ensures |r| == n && forall i :: 0 <= i < n ==> r[i] == c
  {
    if n == 0 then [] else [c] + Repeat(c, n - 1)
  }

  /** n empty strings. */
  function Empties(n: nat): (r: seq<string>)
    ensures |r| == n && forall i :: 0 <= i < n ==> r[i] == ""
  {
    if n == 0 then [] else [""] + Empties(n - 1)
  }

  // ---------------------------------------------------------------------
  // Pieces and Join are inverse to each other

  lemma {:induction false} PiecesHaveNoSeparator(s: string, sep: char)
    ensures forall p :: p in Pieces(s, sep) ==> sep !in p
    decreases |s|
  {
    if s != [] {
      PiecesHaveNoSeparator(s[1..], sep);
      var rest := Pieces(s[1..], sep);
      if s[0] != sep {
        assert sep !in rest[0];
        assert sep !in [s[0]] + rest[0];
        forall p | p in Pieces(s, sep) ensures sep !in p {
          if p != [s[0]] + rest[0] {
            assert p in rest[1..];
          }
        }
      }
    }
  }

  /** Extending the first piece by a character extends the joined string by it. */
  lemma JoinExtendFirst(c: char, rest: seq<string>, sep: char)
    requires rest != []
    ensures Join([[c] + rest[0]] + rest[1..], sep) == [c] + Join(rest, sep)
  {
    var ps := [[c] + rest[0]] + rest[1..];
    assert ps[0] == [c] + rest[0];
    if |rest| > 1 {
      assert ps[1..] == rest[1..];
    }
  }

  /** A leading separator is an empty first piece. */
  lemma JoinEmptyFirst(rest: seq<string>, sep: char)
    requires rest != []
    ensures Join([""] + rest, sep) == [sep] + Join(rest, sep)
  {
    assert ([""] + rest)[1..] == rest;
  }

  lemma {:induction false} JoinPieces(s: string, sep: char)
    ensures Join(Pieces(s, sep), sep) == s
    decreases |s|
  {
    if s != [] {
      JoinPieces(s[1..], sep);
      var rest := Pieces(s[1..], sep);
      if s[0] == sep {
        JoinEmptyFirst(rest, sep);
      } else {
        JoinExtendFirst(s[0], rest, sep);
      }
      assert s == [s[0]] + s[1..];
    }
  }

  /** A string without the separator is a single piece. */
  lemma {:induction false} PiecesOfPlain(a: string, sep: char)
    requires sep !in a
    ensures Pieces(a, sep) == [a]
    decreases |a|
  {
    if a != [] {
      PiecesOfPlain(a[1..], sep);
      assert [a[0]] + a[1..] == a;
    }
  }

  /** A separator after a plain prefix starts a new piece. */
  lemma {:induction false} PiecesAfterSeparator(a: string, t: string, sep: char)
    requires sep !in a
    ensures Pieces(a + [sep] + t, sep) == [a] + Pieces(t, sep)
    decreases |a|
  {
    var s := a + [sep] + t;
    if a == [] {
      assert s == [sep] + t;
      assert s[1..] == t;
    } else {
      assert s[1..] == a[1..] + [sep] + t;
      PiecesAfterSeparator(a[1..], t, sep);
      assert [a[0]] + a[1..] == a;
    }
  }

  lemma {:induction false} PiecesOfJoin(parts: seq<string>, sep: char)
    requires |parts| >= 1
    requires forall p :: p in parts ==> sep !in p
    ensures Pieces(Join(parts, sep), sep) == parts
    decreases |parts|
  {
    if |parts| == 1 {
      PiecesOfPlain(parts[0], sep);
    } else {
      assert parts[0] in parts;
      forall p | p in parts[1..] ensures sep !in p {
        assert p in parts;
      }
      PiecesOfJoin(parts[1..], sep);
      PiecesAfterSeparator(parts[0], Join(parts[1..], sep), sep);
      assert [parts[0]] + parts[1..] == parts;
    }
  }

  lemma {:induction false} JoinAppendEmpties(parts: seq<string>, n: nat, sep: char)
    requires |parts| >= 1
    ensures Join(parts + Empties(n), sep) == Join(parts, sep) + Repeat(sep, n)
    decreases |parts|, n
  {
    if n > 0 {
      var q := parts + Empties(n);
      if |parts| == 1 {
        assert q[1..] == [""] + Empties(n - 1);
        JoinAppendEmpties([""], n - 1, sep);
        assert Join(q[1..], sep) == Repeat(sep, n - 1);
        assert Join(q, sep) == parts[0] + [sep] + Repeat(sep, n - 1);
        assert [sep] + Repeat(sep, n - 1) == Repeat(sep, n);
        assert parts[0] + [sep] + Repeat(sep, n - 1) == parts[0] + Repeat(sep, n);
      } else {
        JoinAppendEmpties(parts[1..], n, sep);
        assert q[1..] == parts[1..] + Empties(n);
        assert Join(q, sep) == parts[0] + [sep] + (Join(parts[1..], sep) + Repeat(sep, n));
        assert Join(parts, sep) == parts[0] + [sep] + Join(parts[1..], sep);
      }
    } else {
      assert parts + Empties(0) == parts;
    }
  }

  lemma {:induction false} DropTrailingEmpties(parts: seq<string>, n: nat)
    requires parts != [] && parts[|parts| - 1] != ""
    ensures DropTrailingEmpty(parts + Empties(n)) == parts
    decreases n
  {
    if n > 0 {
      var e := Empties(n);
      var q := parts + e;
      assert q[|q| - 1] == "";
      EmptiesPrefix(n);
      assert q[..|q| - 1] == parts + e[..n - 1];
      DropTrailingEmpties(parts, n - 1);
    }
  }

  lemma EmptiesPrefix(n: nat)
    requires n > 0
    ensures Empties(n)[..n - 1] == Empties(n - 1)
  {
  }

  // ---------------------------------------------------------------------
  // When split yields exactly two parts

  /** name + sep + value splits back into exactly [name, value]. */
  lemma SplitTwoParts(a: string, b: string, sep: char)
    requires sep !in a && sep !in b && b != ""
    ensures Split(a + [sep] + b, sep) == [a, b]
  {
    SplitTwoPartsWithTrail(a, b, 0, sep);
    assert a + [sep] + b + Repeat(sep, 0) == a + [sep] + b;
  }

  /** Trailing separators after the second part are dropped by split. */
  lemma SplitTwoPartsWithTrail(a: string, b: string, k: nat, sep: char)
    requires sep !in a && sep !in b && b != ""
    ensures Split(a + [sep] + b + Repeat(sep, k), sep) == [a, b]
  {
    var s := a + [sep] + b + Repeat(sep, k);
    assert s[|a|] == sep;
    assert Join([a, b], sep) == a + [sep] + b;
    JoinAppendEmpties([a, b], k, sep);
    var parts := [a, b] + Empties(k);
    assert Join(parts, sep) == s;
    forall p | p in parts ensures sep !in p {
      if p != a && p != b {
        assert p == "";
      }
    }
    PiecesOfJoin(parts, sep);
    DropTrailingEmpties([a, b], k);
  }

  /**
   * Conversely: when split yields exactly two parts, the string is the first
   * part, the separator, a non-empty second part, then only separators.
   */
  lemma {:induction false} SplitTwoPartsShape(s: string, sep: char)
    requires |Split(s, sep)| == 2
    ensures var p := Split(s, sep);
      && sep !in p[0] && sep !in p[1] && p[1] != ""
      && |s| >= |p[0]| + 1 + |p[1]|
      && s == p[0] + [sep] + p[1] + Repeat(sep, |s| - |p[0]| - 1 - |p[1]|)
  {
    assert sep in s;
    var ps := Pieces(s, sep);
    var p := DropTrailingEmpty(ps);
    assert p == Split(s, sep);
    PiecesHaveNoSeparator(s, sep);
    assert p[0] in ps && p[1] in ps;
    var m := |ps| - 2;
    assert ps == p + Empties(m);
    JoinPieces(s, sep);
    JoinAppendEmpties(p, m, sep);
    assert Join(p, sep) == p[0] + [sep] + p[1];
  }

  // ---------------------------------------------------------------------

  /** Character.toLowerCase restricted to ASCII letters. */
  function LowerChar(c: char): char
  {
    if 'A' <= c <= 'Z' then (c as int + 32) as char else c
  }

  /** String.toLowerCase, ASCII letters only. */
  function ToLower(s: string): (r: string)
    ensures |r| == |s|
    ensures forall i :: 0 <= i < |s| ==> r[i] == LowerChar(s[i])
  {
    if s == [] then [] else [LowerChar(s[0])] + ToLower(s[1..])
  }

  /** Lower-casing twice is lower-casing once. */
  lemma ToLowerIdempotent(s: string)
    ensures ToLower(ToLower(s)) == ToLower(s)
  {
  }

  // ---------------------------------------------------------------------

  const TwoTo32: int := 0x1_0000_0000
  const TwoTo31: int := 0x8000_0000

  /** The Java int that x wraps to. */
  function ToInt32(x: int): (r: int)
    ensures -TwoTo31 <= r < TwoTo31
    ensures (x - r) % TwoTo32 == 0
  {
    var m := x % TwoTo32;
    if m >= TwoTo31 then m - TwoTo32 else m
  }

  /** String.hashCode: h := 31 * h + c over the characters, in int arithmetic. */
  function StringHashCode(s: string): (h: int)
    ensures -TwoTo31 <= h < TwoTo31
    decreases |s|
  {
    if s == [] then 0
    else ToInt32(31 * StringHashCode(s[..|s| - 1]) + s[|s| - 1] as int)
  }

  /** Objects.hash(x) for one argument whose hash is h: 31 * 1 + h. */
  function SingleFieldHash(h: int): (r: int)
    ensures -TwoTo31 <= r < TwoTo31
  {
    ToInt32(31 + h)
  }
}
