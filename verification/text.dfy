/**
 * The two JavaScript string operations the Bearer gate uses:
 * `startsWith` and `split` on a one-character separator, plus `join`,
 * the inverse of `split`.
 */
module Text {

  /** `s.startsWith(prefix)`. */
  function StartsWith(s: string, prefix: string): (b: bool)
    ensures b <==> |prefix| <= |s| && forall i :: 0 <= i < |prefix| ==> s[i] == prefix[i]
  {
    |prefix| <= |s| && s[..|prefix|] == prefix
  }

  /**
   * `s.split(sep)` for a one-character separator: the maximal separator-free
   * pieces between separators, including empty pieces between two adjacent
   * separators and at either end. There is always at least one piece.
   */
  function Split(s: string, sep: char): (parts: seq<string>)
    ensures |parts| >= 1
    ensures forall i :: 0 <= i < |parts| ==> sep !in parts[i]
    decreases |s|
  {
    if |s| == 0 then [""]
    else
      var rest := Split(s[1..], sep);
      if s[0] == sep then [""] + rest
      else [[s[0]] + rest[0]] + rest[1..]
  }

  /** `parts.join(sep)`. */
  function Join(parts: seq<string>, sep: char): string
    requires |parts| >= 1
    decreases |parts|
  {
    if |parts| == 1 then parts[0] else parts[0] + [sep] + Join(parts[1..], sep)
  }

  /** Splitting loses nothing: joining the pieces gives the string back. */
  lemma {:induction false} JoinSplit(s: string, sep: char)
    ensures Join(Split(s, sep), sep) == s
    decreases |s|
  {
    if |s| > 0 {
      var rest := Split(s[1..], sep);
      JoinSplit(s[1..], sep);
      if s[0] == sep {
        assert Split(s, sep) == [""] + rest;
        assert ([""] + rest)[1..] == rest;
        assert s == [s[0]] + s[1..];
      } else {
        var parts := [[s[0]] + rest[0]] + rest[1..];
        assert Split(s, sep) == parts;
        if |rest| == 1 {
          assert s == [s[0]] + rest[0];
        } else {
          assert parts[1..] == rest[1..];
          assert Join(rest, sep) == rest[0] + [sep] + Join(rest[1..], sep);
          assert s == [s[0]] + s[1..];
        }
      }
    }
  }

  /** A string splits into a single piece exactly when it holds no separator. */
  lemma SplitSingle(s: string, sep: char)
    ensures |Split(s, sep)| == 1 <==> sep !in s
  {
    var parts := Split(s, sep);
    JoinSplit(s, sep);
    if |parts| > 1 {
      assert Join(parts, sep) == parts[0] + [sep] + Join(parts[1..], sep);
      assert s[|parts[0]|] == sep;
    }
  }

  /**
   * When the first separator of `s` sits at `m` (or `m == |s|` and there is
   * none), the first piece is `s[..m]` and the remaining pieces are the
   * pieces of what follows that separator.
   */
  lemma {:induction false} FirstPiece(s: string, sep: char, m: nat)
    requires m <= |s|
    requires forall k :: 0 <= k < m ==> s[k] != sep
    requires m == |s| || s[m] == sep
    ensures Split(s, sep)[0] == s[..m]
    ensures m < |s| ==> Split(s, sep)[1..] == Split(s[m + 1..], sep)
    decreases m
  {
    if m > 0 {
      var rest := Split(s[1..], sep);
      FirstPiece(s[1..], sep, m - 1);
      if m < |s| {
        assert s[1..][m - 1 + 1..] == s[m + 1..];
      }
      assert Split(s, sep) == [[s[0]] + rest[0]] + rest[1..];
      assert s[..m] == [s[0]] + s[1..][..m - 1];
    }
  }

  /** Joining separator-free pieces and splitting again gives the same pieces. */
  lemma {:induction false} SplitJoin(parts: seq<string>, sep: char)
    requires |parts| >= 1
    requires forall i :: 0 <= i < |parts| ==> sep !in parts[i]
    ensures Split(Join(parts, sep), sep) == parts
    decreases |parts|, |parts[0]|
  {
    if |parts[0]| > 0 {
      var p0 := parts[0];
      var tail := [p0[1..]] + parts[1..];
      assert tail[0] == p0[1..] && tail[1..] == parts[1..];
      assert forall i :: 0 <= i < |tail| ==> sep !in tail[i] by {
        forall i | 0 <= i < |tail| ensures sep !in tail[i] {
          if i == 0 {
            assert forall c :: c in p0[1..] ==> c in p0;
          } else {
            assert tail[i] == parts[i];
          }
        }
      }
      JoinTail(parts, sep);
      SplitJoin(tail, sep);
      var s := Join(parts, sep);
      assert s[0] == p0[0] && s[1..] == Join(tail, sep);
      assert p0[0] != sep by { assert p0[0] in p0; }
      assert [p0[0]] + p0[1..] == p0;
      assert parts == [p0] + parts[1..];
    } else if |parts| > 1 {
      SplitJoin(parts[1..], sep);
      var s := Join(parts, sep);
      assert s == [sep] + Join(parts[1..], sep);
      assert s[1..] == Join(parts[1..], sep);
      assert parts == [""] + parts[1..];
    }
  }

  /** Peeling the first character off the first piece commutes with joining. */
  lemma {:induction false} JoinTail(parts: seq<string>, sep: char)
    requires |parts| >= 1 && |parts[0]| > 0
    ensures var s := Join(parts, sep);
            |s| > 0 && s[0] == parts[0][0] && s[1..] == Join([parts[0][1..]] + parts[1..], sep)
  {
    var p0 := parts[0];
    var tail := [p0[1..]] + parts[1..];
    assert tail[0] == p0[1..];
    if |parts| > 1 {
      assert tail[1..] == parts[1..];
      var j := Join(parts[1..], sep);
      assert Join(parts, sep) == p0 + [sep] + j;
      assert Join(tail, sep) == p0[1..] + [sep] + j;
      assert (p0 + [sep] + j)[1..] == p0[1..] + [sep] + j;
    }
  }
}
