/**
 * The JavaScript string primitives the request checks rely on:
 * `String.prototype.startsWith`, `String.prototype.split(' ')`, the
 * whitespace trimming applied by the request sanitisers, and the length
 * validator.js's `isLength` measures.
 */
module Text {

  /** Whitespace as JavaScript's `\s` character class defines it. */
  predicate IsWhitespace(c: char) {
    var n := c as int;
    || (0x09 <= n <= 0x0D) || n == 0x20 || n == 0xA0 || n == 0x1680
    || (0x2000 <= n <= 0x200A) || n == 0x2028 || n == 0x2029 || n == 0x202F
    || n == 0x205F || n == 0x3000 || n == 0xFEFF
  }

  predicate StartsWith(s: string, prefix: string) {
    |prefix| <= |s| && s[..|prefix|] == prefix
  }

  predicate NoSpace(s: string) {
    ' ' !in s
  }

  /**
   * `s.split(' ')`: the pieces between consecutive single spaces. There is
   * always at least one piece, and two adjacent spaces yield an empty piece.
   */
  function Split(s: string): (parts: seq<string>)
    ensures |parts| >= 1
    ensures forall i :: 0 <= i < |parts| ==> NoSpace(parts[i])
    decreases |s|
  {
    if |s| == 0 then [""]
    else
      var rest := Split(s[1..]);
      if s[0] == ' ' then [""] + rest
      else [[s[0]] + rest[0]] + rest[1..]
  }

  /** `parts.join(' ')`: the inverse of `Split`. */
  function Join(parts: seq<string>): (s: string)
    requires |parts| >= 1
    decreases |parts|
  {
    if |parts| == 1 then parts[0] else parts[0] + " " + Join(parts[1..])
  }

  /** Splitting and re-joining gives back the original string. */
  lemma {:induction false} JoinSplit(s: string)
    ensures Join(Split(s)) == s
    decreases |s|
  {
    if |s| > 0 {
      JoinSplit(s[1..]);
      var rest := Split(s[1..]);
      if s[0] == ' ' {
        calc {
          Join(Split(s));
          Join([""] + rest);
          { assert ([""] + rest)[1..] == rest; }
          "" + " " + Join(rest);
          [s[0]] + s[1..];
          s;
        }
      } else if |rest| == 1 {
        assert Split(s) == [[s[0]] + rest[0]];
        assert [s[0]] + s[1..] == s;
      } else {
        var parts := Split(s);
        assert parts[1..] == rest[1..];
        calc {
          Join(parts);
          [s[0]] + rest[0] + " " + Join(rest[1..]);
          [s[0]] + Join(rest);
          s;
        }
      }
    }
  }

  /** A space-free prefix is glued onto the first piece of what follows it. */
  lemma {:induction false} SplitPrefix(p: string, q: string)
    requires NoSpace(p)
    ensures Split(p + q) == [p + Split(q)[0]] + Split(q)[1..]
    decreases |p|
  {
    if |p| == 0 {
      assert p + q == q;
      assert p + Split(q)[0] == Split(q)[0];
      assert Split(q) == [Split(q)[0]] + Split(q)[1..];
    } else {
      assert (p + q)[1..] == p[1..] + q;
      assert (p + q)[0] == p[0];
      assert p[0] != ' ' by { assert p[0] in p; }
      SplitPrefix(p[1..], q);
      assert [p[0]] + (p[1..] + Split(q)[0]) == p + Split(q)[0];
    }
  }

  /** Joining space-free pieces and splitting again gives back the pieces. */
  lemma {:induction false} SplitJoin(parts: seq<string>)
    requires |parts| >= 1
    requires forall i :: 0 <= i < |parts| ==> NoSpace(parts[i])
    ensures Split(Join(parts)) == parts
    decreases |parts|
  {
    if |parts| == 1 {
      SplitPrefix(parts[0], "");
      assert parts[0] + "" == parts[0];
    } else {
      var tail := Join(parts[1..]);
      SplitJoin(parts[1..]);
      assert Split(" " + tail) == [""] + Split(tail) by {
        assert (" " + tail)[1..] == tail;
      }
      assert parts[0] + " " + tail == parts[0] + (" " + tail);
      SplitPrefix(parts[0], " " + tail);
      assert parts[0] + "" == parts[0];
    }
  }

  /** Strips leading whitespace. */
  function TrimStart(s: string): (r: string)
    ensures |r| <= |s| && r == s[|s| - |r|..]
    ensures forall i :: 0 <= i < |s| - |r| ==> IsWhitespace(s[i])
    ensures r == [] || !IsWhitespace(r[0])
    decreases |s|
  {
    if |s| > 0 && IsWhitespace(s[0]) then TrimStart(s[1..]) else s
  }

  /** Strips trailing whitespace. */
  function TrimEnd(s: string): (r: string)
    ensures |r| <= |s| && r == s[..|r|]
    ensures forall i :: |r| <= i < |s| ==> IsWhitespace(s[i])
    ensures r == [] || !IsWhitespace(r[|r| - 1])
    decreases |s|
  {
    if |s| > 0 && IsWhitespace(s[|s| - 1]) then TrimEnd(s[..|s| - 1]) else s
  }

  /** The `trim()` sanitiser: whitespace removed from both ends. */
  function Trim(s: string): (r: string)
    ensures |r| <= |s|
    ensures r == [] || (!IsWhitespace(r[0]) && !IsWhitespace(r[|r| - 1]))
  {
    TrimEnd(TrimStart(s))
  }

  /** `TrimStart(s)` drops a leading whitespace run and stops on a non-whitespace character. */
  lemma TrimStartShape(s: string) returns (i: nat)
    ensures i <= |s| && TrimStart(s) == s[i..]
    ensures forall k :: 0 <= k < i ==> IsWhitespace(s[k])
    ensures i < |s| ==> !IsWhitespace(s[i])
  {
    i := |s| - |TrimStart(s)|;
  }

  /** `TrimEnd(s)` drops a trailing whitespace run and stops on a non-whitespace character. */
  lemma TrimEndShape(s: string) returns (j: nat)
    ensures j <= |s| && TrimEnd(s) == s[..j]
    ensures forall k :: j <= k < |s| ==> IsWhitespace(s[k])
    ensures 0 < j ==> !IsWhitespace(s[j - 1])
  {
    j := |TrimEnd(s)|;
  }

  /** Taking `n` characters after dropping `i` is the slice from `i` to `i + n`. */
  lemma SliceOfSlice(s: string, i: nat, n: nat)
    requires i + n <= |s|
    ensures s[i..][..n] == s[i..i + n]
  {
    assert forall k :: 0 <= k < n ==> s[i..][..n][k] == s[i + k];
  }

  /**
   * `Trim(s)` is `s` with its leading and trailing whitespace runs cut off:
   * everything before `i` and from `j` on is whitespace, and the kept slice
   * starts and ends on a non-whitespace character unless it is empty.
   */
  lemma TrimShape(s: string) returns (i: nat, j: nat)
    ensures i <= j <= |s| && Trim(s) == s[i..j]
    ensures forall k :: 0 <= k < i ==> IsWhitespace(s[k])
    ensures forall k :: j <= k < |s| ==> IsWhitespace(s[k])
    ensures i < j ==> !IsWhitespace(s[i]) && !IsWhitespace(s[j - 1])
  {
    i := TrimStartShape(s);
    var t := s[i..];
    var n := TrimEndShape(t);
    j := i + n;
    SliceOfSlice(s, i, n);
    forall k | j <= k < |s|
      ensures IsWhitespace(s[k])
    {
      assert s[k] == t[k - i];
    }
    assert i < j ==> s[i] == t[0] && s[j - 1] == t[n - 1];
  }

  /** Whether `c` is one of the variation selectors U+FE0E and U+FE0F. */
  predicate IsPresentationSelector(c: char) {
    c == '\U{FE0E}' || c == '\U{FE0F}'
  }

  /**
   * The length validator.js's `isLength` compares with its bounds: the
   * number of code points, not counting the variation selectors.
   */
  function ValidatorLength(s: string): (n: nat)
    ensures n <= |s|
    decreases |s|
  {
    if |s| == 0 then 0
    else (if IsPresentationSelector(s[0]) then 0 else 1) + ValidatorLength(s[1..])
  }

  /** The validator length falls short of the code-point count exactly when a selector occurs. */
  lemma {:induction false} ValidatorLengthFull(s: string)
    ensures ValidatorLength(s) == |s| <==> forall i :: 0 <= i < |s| ==> !IsPresentationSelector(s[i])
    decreases |s|
  {
    if |s| > 0 {
      ValidatorLengthFull(s[1..]);
      assert forall i :: 1 <= i < |s| ==> s[i] == s[1..][i - 1];
    }
  }

  /** The validator length of a concatenation is the sum of the parts' lengths. */
  lemma {:induction false} ValidatorLengthAppend(a: string, b: string)
    ensures ValidatorLength(a + b) == ValidatorLength(a) + ValidatorLength(b)
    decreases |a|
  {
    if |a| == 0 {
      assert a + b == b;
    } else {
      assert (a + b)[0] == a[0] && (a + b)[1..] == a[1..] + b;
      ValidatorLengthAppend(a[1..], b);
    }
  }

  /** A trailing U+FE0F does not count: "abc" followed by it has length three. */
  lemma ValidatorLengthSkipsSelector()
    ensures ValidatorLength("abc\U{FE0F}") == 3
    ensures ValidatorLength("abcd") == 4
  {
    assert "abc\U{FE0F}" == "abc" + "\U{FE0F}";
    ValidatorLengthAppend("abc", "\U{FE0F}");
  }
}
