/**
 * Python's `str.split(sep)` for a non-empty separator, and the facts about it
 * that the request parser and the response format rely on.
 *
 * `split` scans from the left, cuts at the first occurrence of `sep`, and goes
 * on after it; the occurrences it cuts at never overlap.
 */
module Strings {
  import opened Outcomes

  const CRLF: string := "\r\n"

  /** `sep` occurs in `s` starting at index `j`. */
  ghost predicate Occurs(s: string, sep: string, j: nat) {
    j + |sep| <= |s| && s[j..j + |sep|] == sep
  }

  /** `s` holds no occurrence of `sep`. */
  ghost predicate Free(s: string, sep: string) {
    forall j: nat :: !Occurs(s, sep, j)
  }

  /**
   * No proper suffix of `sep` is also a prefix of it, so two occurrences of
   * `sep` can never overlap (true of " ", "/" and CRLF, not of CRLF CRLF).
   */
  ghost predicate SelfOverlapFree(sep: string) {
    forall k :: 0 < k < |sep| ==> sep[k..] != sep[..|sep| - k]
  }

  /** The separators the server splits on cannot overlap themselves. */
  lemma SeparatorsDoNotOverlap()
    ensures SelfOverlapFree(" ") && SelfOverlapFree("/") && SelfOverlapFree(CRLF)
  {
    assert CRLF[1..][0] == '\n' && CRLF[..1][0] == '\r';
  }

  lemma ShiftOccurs(s: string, sep: string, j: nat)
    requires |s| > 0
    ensures Occurs(s, sep, j + 1) <==> Occurs(s[1..], sep, j)
  {
  }

  /** The index of the first occurrence of `sep` in `s` (`str.find`, or none). */
  function IndexOf(s: string, sep: string): (r: Option<nat>)
    ensures r.Some? ==> Occurs(s, sep, r.value)
    ensures r.Some? ==> forall j: nat :: j < r.value ==> !Occurs(s, sep, j)
    ensures r.None? ==> Free(s, sep)
    decreases |s|
  {
    if |s| < |sep| then None
    else if s[..|sep|] == sep then Some(0)
    else
      assert forall j: nat :: Occurs(s, sep, j + 1) <==> Occurs(s[1..], sep, j) by {
        forall j: nat ensures Occurs(s, sep, j + 1) <==> Occurs(s[1..], sep, j) {
          ShiftOccurs(s, sep, j);
        }
      }
      match IndexOf(s[1..], sep)
      case None =>
        assert forall j: nat :: !Occurs(s, sep, j) by {
          forall j: nat ensures !Occurs(s, sep, j) {
            if j == 0 {
              assert s[0..|sep|] == s[..|sep|];
            } else {
              assert !Occurs(s[1..], sep, j - 1);
            }
          }
        }
        None
      case Some(k) =>
        assert forall j: nat :: j < k + 1 ==> !Occurs(s, sep, j) by {
          forall j: nat | j < k + 1 ensures !Occurs(s, sep, j) {
            if j == 0 {
              assert s[0..|sep|] == s[..|sep|];
            } else {
              assert !Occurs(s[1..], sep, j - 1);
            }
          }
        }
        Some(k + 1)
  }

  lemma PrefixFree(s: string, sep: string, k: nat)
    requires |sep| > 0 && k <= |s|
    requires forall j: nat :: j < k ==> !Occurs(s, sep, j)
    ensures Free(s[..k], sep)
  {
    forall j: nat ensures !Occurs(s[..k], sep, j) {
      if j + |sep| <= k {
        assert s[..k][j..j + |sep|] == s[j..j + |sep|];
        assert !Occurs(s, sep, j);
      }
    }
  }

  /**
   * `s.split(sep)`: the pieces between the occurrences of `sep`, found from
   * the left. There is always at least one piece, and no piece holds `sep`.
   */
  function Split(s: string, sep: string): (r: seq<string>)
    requires |sep| > 0
    ensures |r| >= 1
    ensures forall i :: 0 <= i < |r| ==> Free(r[i], sep)
    decreases |s|
  {
    match IndexOf(s, sep)
    case None => [s]
    case Some(k) =>
      PrefixFree(s, sep, k);
      [s[..k]] + Split(s[k + |sep|..], sep)
  }

  /** `sep.join(parts)`. */
  function Join(parts: seq<string>, sep: string): string {
    if |parts| == 0 then ""
    else if |parts| == 1 then parts[0]
    else parts[0] + sep + Join(parts[1..], sep)
  }

  /** Joining the pieces of a split with the same separator gives back the text. */
  lemma {:induction false} JoinSplit(s: string, sep: string)
    requires |sep| > 0
    ensures Join(Split(s, sep), sep) == s
    decreases |s|
  {
    match IndexOf(s, sep)
    case None =>
    case Some(k) =>
      var head, rest := s[..k], s[k + |sep|..];
      var tail := Split(rest, sep);
      assert Split(s, sep) == [head] + tail;
      JoinSplit(rest, sep);
      assert ([head] + tail)[1..] == tail;
      assert Join([head] + tail, sep) == head + sep + rest;
      assert s[k..k + |sep|] == sep;
      assert s == head + sep + rest;
  }

  /**
   * When `a` holds no `sep` and no occurrence of `sep` starts inside `a` and
   * runs past its end, the first occurrence in `a + sep + b` is right after `a`.
   */
  lemma FirstOccurrence(a: string, sep: string, b: string)
    requires Free(a, sep)
    requires forall j: nat :: j < |a| < j + |sep| ==> !Occurs(a + sep + b, sep, j)
    ensures IndexOf(a + sep + b, sep) == Some(|a|)
  {
    var s := a + sep + b;
    assert s[|a|..|a| + |sep|] == sep;
    assert Occurs(s, sep, |a|);
    forall j: nat | j < |a| ensures !Occurs(s, sep, j) {
      if j + |sep| <= |a| {
        assert s[j..j + |sep|] == a[j..j + |sep|];
        assert !Occurs(a, sep, j);
      }
    }
  }

  /** With a separator that cannot overlap itself, nothing starts inside `a` and runs into `sep`. */
  lemma NoStraddle(a: string, sep: string, b: string)
    requires SelfOverlapFree(sep)
    ensures forall j: nat :: j < |a| < j + |sep| ==> !Occurs(a + sep + b, sep, j)
  {
    var s := a + sep + b;
    forall j: nat | j < |a| < j + |sep| ensures !Occurs(s, sep, j) {
      var k := |a| - j;
      assert s[j..j + |sep|][k..] == sep[..|sep| - k];
      assert sep[k..] != sep[..|sep| - k];
    }
  }

  /**
   * Splitting the join of separator-free pieces gives the pieces back, for a
   * separator that cannot overlap itself.
   */
  lemma {:induction false} SplitJoin(parts: seq<string>, sep: string)
    requires |sep| > 0 && SelfOverlapFree(sep)
    requires |parts| >= 1
    requires forall i :: 0 <= i < |parts| ==> Free(parts[i], sep)
    ensures Split(Join(parts, sep), sep) == parts
    decreases |parts|
  {
    if |parts| == 1 {
      assert IndexOf(parts[0], sep).None?;
    } else {
      var rest := Join(parts[1..], sep);
      var s := parts[0] + sep + rest;
      NoStraddle(parts[0], sep, rest);
      FirstOccurrence(parts[0], sep, rest);
      assert s[|parts[0]| + |sep|..] == rest;
      assert s[..|parts[0]|] == parts[0];
      SplitJoin(parts[1..], sep);
      assert Split(s, sep) == [parts[0]] + parts[1..];
    }
  }

  /**
   * The first piece of a split is the text before the first `sep`: a prefix
   * of `s` holding no `sep`, followed in `s` by `sep` unless it is all of `s`.
   */
  lemma FirstPiece(s: string, sep: string)
    requires |sep| > 0
    ensures Split(s, sep)[0] <= s
    ensures |Split(s, sep)| == 1 <==> Split(s, sep)[0] == s
    ensures Split(s, sep)[0] != s ==> Occurs(s, sep, |Split(s, sep)[0]|)
    ensures forall j: nat :: j < |Split(s, sep)[0]| ==> !Occurs(s, sep, j)
  {
  }

  /** The text before the first `sep`, with the rest dropped. */
  lemma {:induction false} FirstPieceOfJoin(a: string, sep: string, b: string)
    requires |sep| > 0 && SelfOverlapFree(sep)
    requires Free(a, sep)
    ensures Split(a + sep + b, sep)[0] == a
    ensures Split(a, sep) == [a]
  {
    NoStraddle(a, sep, b);
    FirstOccurrence(a, sep, b);
    assert (a + sep + b)[..|a|] == a;
    assert IndexOf(a, sep).None?;
  }

  /** A string without the separator's first character holds no separator. */
  lemma NoLeadFree(s: string, sep: string)
    requires |sep| > 0
    requires forall i :: 0 <= i < |s| ==> s[i] != sep[0]
    ensures Free(s, sep)
  {
    forall j: nat ensures !Occurs(s, sep, j) {
      if j + |sep| <= |s| {
        assert s[j..j + |sep|][0] == s[j];
      }
    }
  }

  /** Concatenation keeps a two-character separator out unless it straddles the seam. */
  lemma FreeConcat(x: string, y: string, sep: string)
    requires |sep| == 2
    requires Free(x, sep) && Free(y, sep)
    requires |x| > 0 && |y| > 0 ==> x[|x| - 1] != sep[0] || y[0] != sep[1]
    ensures Free(x + y, sep)
  {
    var s := x + y;
    forall j: nat | j + 2 <= |s| ensures !Occurs(s, sep, j) {
      if j + 2 <= |x| {
        assert s[j..j + 2] == x[j..j + 2];
        assert !Occurs(x, sep, j);
      } else if j >= |x| {
        assert s[j..j + 2] == y[j - |x|..j - |x| + 2];
        assert !Occurs(y, sep, j - |x|);
      } else {
        assert s[j..j + 2] == [x[|x| - 1], y[0]];
      }
    }
  }

  /** The end of a string free of `sep` is free of it too. */
  lemma FreeSuffix(x: string, y: string, sep: string)
    requires Free(x + y, sep)
    ensures Free(y, sep)
  {
    forall j: nat | j + |sep| <= |y| ensures !Occurs(y, sep, j) {
      assert (x + y)[|x| + j..|x| + j + |sep|] == y[j..j + |sep|];
      assert !Occurs(x + y, sep, |x| + j);
    }
  }
}
