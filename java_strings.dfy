/**
 * The parts of java.lang.String the core relies on: `split` with a one-character
 * separator (limit 0), `trim`, and substring containment (the meaning given here to
 * JPQL's `LIKE CONCAT('%', t, '%')`).
 */
module JavaStrings {

  /** Number of occurrences of `c` in `s`. */
  function CountOf(s: string, c: char): nat
  {
    if s == [] then 0 else (if s[0] == c then 1 else 0) + CountOf(s[1..], c)
  }

  /** `k` copies of the space character. */
  function Spaces(k: nat): (r: string)
    ensures |r| == k && forall i :: 0 <= i < k ==> r[i] == ' '
  {
    seq(k, _ => ' ')
  }

  /** `k` empty strings. */
  function Empties(k: nat): (r: seq<string>)
    ensures |r| == k && forall i :: 0 <= i < k ==> r[i] == []
  {
    seq(k, _ => [])
  }

  /**
   * The pieces of `s` between occurrences of `sep`, empty pieces included: what
   * String.split collects before it drops trailing empty strings.
   */
  function Pieces(s: string, sep: char): (r: seq<string>)
    ensures |r| == CountOf(s, sep) + 1
    ensures forall i :: 0 <= i < |r| ==> sep !in r[i]
    decreases |s|
  {
    if s == [] then [[]]
    else
      var rest := Pieces(s[1..], sep);
      if s[0] == sep then [[]] + rest
      else [[s[0]] + rest[0]] + rest[1..]
  }

  /** The pieces glued back together with `sep` between neighbours. */
  function Join(ps: seq<string>, sep: char): string
  {
    if ps == [] then []
    else if |ps| == 1 then ps[0]
    else ps[0] + [sep] + Join(ps[1..], sep)
  }

  /** Removes the empty strings at the end of a list, as split does with limit 0. */
  function DropTrailingEmpty(ps: seq<string>): (r: seq<string>)
    ensures r <= ps
    ensures r != [] ==> r[|r| - 1] != []
    ensures forall i :: |r| <= i < |ps| ==> ps[i] == []
  {
    if ps == [] then []
    else if ps[|ps| - 1] == [] then DropTrailingEmpty(ps[..|ps| - 1])
    else ps
  }

  /**
   * `s.split(String.valueOf(sep))`: when `sep` does not occur the result is `[s]`
   * (even for the empty string); otherwise the pieces with trailing empty ones removed.
   */
  function Split(s: string, sep: char): (r: seq<string>)
    ensures sep !in s ==> r == [s]
    ensures forall i :: 0 <= i < |r| ==> sep !in r[i]
    ensures sep == ' ' && ' ' in s ==>
      var t := WithoutTrailingSpaces(s); r == if t == [] then [] else Pieces(t, ' ')
  {
    if sep !in s then [s]
    else
      DropTrailingSpaces(s);
      DropTrailingEmpty(Pieces(s, sep))
  }

  /** `s.trim()`: removes every leading and trailing character at or below U+0020. */
  function Trim(s: string): (r: string)
    ensures r != [] ==> r[0] > ' ' && r[|r| - 1] > ' '
    ensures r <= s[|s| - |TrimStart(s)|..]
    ensures forall i :: |r| <= i < |TrimStart(s)| ==> TrimStart(s)[i] <= ' '
  {
    var a := TrimStart(s);
    var r := TrimEnd(a);
    assert r <= a;
    r
  }

  function TrimStart(s: string): (r: string)
    ensures r != [] ==> r[0] > ' '
    ensures |r| <= |s| && r == s[|s| - |r|..]
    ensures forall i :: 0 <= i < |s| - |r| ==> s[i] <= ' '
  {
    if s != [] && s[0] <= ' ' then TrimStart(s[1..]) else s
  }

  function TrimEnd(s: string): (r: string)
    ensures r != [] ==> r[|r| - 1] > ' '
    ensures r <= s && forall i :: |r| <= i < |s| ==> s[i] <= ' '
  {
    if s != [] && s[|s| - 1] <= ' ' then TrimEnd(s[..|s| - 1]) else s
  }

  /** The longest prefix of `s` that does not end in a space character. */
  function WithoutTrailingSpaces(s: string): (r: string)
    ensures r <= s && (r != [] ==> r[|r| - 1] != ' ')
    ensures s == r + Spaces(|s| - |r|)
  {
    if s != [] && s[|s| - 1] == ' ' then
      var r := WithoutTrailingSpaces(s[..|s| - 1]);
      assert s == s[..|s| - 1] + [' '];
      r
    else
      assert s == s + Spaces(0);
      s
  }

  /** `needle` is the run of `hay` that starts at index `i`. */
  predicate OccursAt(hay: string, needle: string, i: int)
  {
    0 <= i <= |hay| - |needle| && hay[i..i + |needle|] == needle
  }

  /** `needle` occurs in `hay` as a contiguous run. */
  predicate Contains(hay: string, needle: string): (b: bool)
    ensures needle <= hay ==> b
    ensures needle == [] ==> b
    ensures b ==> exists i :: OccursAt(hay, needle, i)
    decreases |hay|
  {
    OccursInTail(hay, needle);
    needle <= hay || (hay != [] && Contains(hay[1..], needle))
  }

  // ---------------------------------------------------------------------------
  // Lemmas

  lemma {:induction false} CountOfAppend(a: string, b: string, c: char)
    ensures CountOf(a + b, c) == CountOf(a, c) + CountOf(b, c)
    decreases |a|
  {
    if a == [] {
      assert a + b == b;
    } else {
      assert (a + b)[1..] == a[1..] + b;
      CountOfAppend(a[1..], b, c);
    }
  }

  lemma {:induction false} CountOfAbsent(s: string, c: char)
    ensures c !in s <==> CountOf(s, c) == 0
    decreases |s|
  {
    if s != [] {
      CountOfAbsent(s[1..], c);
    }
  }

  /** Gluing the pieces back together gives the original string. */
  lemma {:induction false} JoinPieces(s: string, sep: char)
    ensures Join(Pieces(s, sep), sep) == s
    decreases |s|
  {
    if s != [] {
      var rest := Pieces(s[1..], sep);
      JoinPieces(s[1..], sep);
      if s[0] != sep && |rest| > 1 {
        assert Join(rest, sep) == rest[0] + [sep] + Join(rest[1..], sep);
        assert [s[0]] + rest[0] + [sep] + Join(rest[1..], sep) == s;
      }
    }
  }

  /** A string with no separator in it is a single piece. */
  lemma {:induction false} PiecesOfPlain(a: string, sep: char)
    requires sep !in a
    ensures Pieces(a, sep) == [a]
    decreases |a|
  {
    if a != [] {
      PiecesOfPlain(a[1..], sep);
      assert [a[0]] + a[1..] == a;
    }
  }

  lemma {:induction false} PiecesCons(a: string, sep: char, t: string)
    requires sep !in a
    ensures Pieces(a + [sep] + t, sep) == [a] + Pieces(t, sep)
    decreases |a|
  {
    if a != [] {
      assert (a + [sep] + t)[1..] == a[1..] + [sep] + t;
      PiecesCons(a[1..], sep, t);
      assert [a[0]] + a[1..] == a;
    } else {
      assert (a + [sep] + t)[1..] == t;
    }
  }

  /** Splitting a join of separator-free pieces gives those pieces back. */
  lemma {:induction false} PiecesJoin(ps: seq<string>, sep: char)
    requires ps != [] && forall i :: 0 <= i < |ps| ==> sep !in ps[i]
    ensures Pieces(Join(ps, sep), sep) == ps
    decreases |ps|
  {
    if |ps| == 1 {
      PiecesOfPlain(ps[0], sep);
    } else {
      PiecesJoin(ps[1..], sep);
      PiecesCons(ps[0], sep, Join(ps[1..], sep));
    }
  }

  /** Trailing separators add one empty piece each. */
  lemma {:induction false} PiecesTrailing(t: string, k: nat, sep: char)
    requires sep == ' '
    ensures Pieces(t + Spaces(k), sep) == Pieces(t, sep) + Empties(k)
    decreases |t|, k
  {
    if t == [] {
      if k > 0 {
        assert Spaces(k) == [' '] + Spaces(k - 1);
        assert ([] + Spaces(k))[1..] == [] + Spaces(k - 1);
        PiecesTrailing([], k - 1, sep);
        assert Empties(k) == [[]] + Empties(k - 1);
        assert Pieces([], sep) + Empties(k) == [[]] + Pieces([], sep) + Empties(k - 1);
      }
    } else {
      assert (t + Spaces(k))[1..] == t[1..] + Spaces(k);
      PiecesTrailing(t[1..], k, sep);
    }
  }

  /** A string that does not end in the separator has a non-empty last piece. */
  lemma {:induction false} LastPieceNonEmpty(t: string, sep: char)
    requires t != [] && t[|t| - 1] != sep
    ensures Pieces(t, sep)[|Pieces(t, sep)| - 1] != []
    decreases |t|
  {
    if |t| > 1 {
      LastPieceNonEmpty(t[1..], sep);
    }
  }

  lemma {:induction false} DropTrailingEmptyAppend(ps: seq<string>, k: nat)
    requires ps != [] && ps[|ps| - 1] != []
    ensures DropTrailingEmpty(ps + Empties(k)) == ps
    decreases k
  {
    if k > 0 {
      var e := Empties(k);
      assert (ps + e)[..|ps + e| - 1] == ps + Empties(k - 1);
      DropTrailingEmptyAppend(ps, k - 1);
    }
  }

  lemma {:induction false} DropAllEmpty(k: nat)
    ensures DropTrailingEmpty(Empties(k)) == []
    decreases k
  {
    if k > 0 {
      var e := Empties(k);
      assert e[..k - 1] == Empties(k - 1);
      DropAllEmpty(k - 1);
    }
  }

  /**
   * Splitting on a space a string that has one gives the pieces of the string
   * with its trailing spaces removed: every piece of that shorter string, and no
   * empty piece at the end.
   */
  lemma DropTrailingSpaces(s: string)
    ensures ' ' in s ==> var t := WithoutTrailingSpaces(s);
      DropTrailingEmpty(Pieces(s, ' ')) == if t == [] then [] else Pieces(t, ' ')
  {
    if ' ' !in s { return; }
    var t := WithoutTrailingSpaces(s);
    var k := |s| - |t|;
    PiecesTrailing(t, k, ' ');
    if t == [] {
      assert Pieces(t, ' ') + Empties(k) == Empties(k + 1);
      DropAllEmpty(k + 1);
    } else {
      LastPieceNonEmpty(t, ' ');
      DropTrailingEmptyAppend(Pieces(t, ' '), k);
    }
  }

  /** A string with a non-blank character at each end is left alone by trim. */
  lemma {:induction false} TrimKeeps(s: string)
    requires s != [] ==> s[0] > ' ' && s[|s| - 1] > ' '
    ensures Trim(s) == s
  {
    assert TrimStart(s) == s;
    assert TrimEnd(s) == s;
  }

  /** Trimming twice is trimming once. */
  lemma TrimIdempotent(s: string)
    ensures Trim(Trim(s)) == Trim(s)
  {
    TrimKeeps(Trim(s));
  }

  /** A run at the start of `hay`, or one in its tail, is a run of `hay`. */
  lemma OccursInTail(hay: string, needle: string)
    ensures needle <= hay ==> OccursAt(hay, needle, 0)
    ensures hay != [] && (exists i :: OccursAt(hay[1..], needle, i)) ==> exists i :: OccursAt(hay, needle, i)
  {
    if hay != [] && exists i :: OccursAt(hay[1..], needle, i) {
      var i :| OccursAt(hay[1..], needle, i);
      assert hay[1..][i..i + |needle|] == hay[i + 1..i + 1 + |needle|];
      assert OccursAt(hay, needle, i + 1);
    }
  }

  /** `Contains` finds a needle exactly when it occurs somewhere in the text. */
  lemma ContainsIffOccurs(hay: string, needle: string)
    ensures Contains(hay, needle) <==> exists i :: OccursAt(hay, needle, i)
  {
    if exists i :: OccursAt(hay, needle, i) {
      var i :| OccursAt(hay, needle, i);
      assert hay == hay[..i] + needle + hay[i + |needle|..];
      ContainsInfix(hay[..i], needle, hay[i + |needle|..]);
    }
  }

  /** A string contains every string that occurs in it between two others. */
  lemma {:induction false} ContainsInfix(a: string, needle: string, b: string)
    ensures Contains(a + needle + b, needle)
    decreases |a|
  {
    if a == [] {
      assert needle <= a + needle + b;
    } else {
      assert (a + needle + b)[1..] == a[1..] + needle + b;
      ContainsInfix(a[1..], needle, b);
    }
  }
}
