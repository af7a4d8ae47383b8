/** The JavaScript string and array built-ins the handler relies on:
    `String.prototype.split` with a non-empty string separator, `Array.prototype.join`,
    `trim`, `toLowerCase` and `Array.prototype.filter`. */
module Text {

  type String = seq<char>

  datatype Option<T> = None | Some(value: T)

  /** `p` is a prefix of `s`. */
  predicate IsPrefix(p: String, s: String)
  {
    |p| <= |s| && s[..|p|] == p
  }

  /** `sep` occurs in `s` at index `i`. */
  predicate OccursAt(s: String, sep: String, i: int)
  {
    0 <= i && i + |sep| <= |s| && s[i..i + |sep|] == sep
  }

  /** `s` contains no occurrence of `sep`. */
  ghost predicate Free(s: String, sep: String)
  {
    forall i :: !OccursAt(s, sep, i)
  }

  /** `s.split(sep)`: scan left to right, cut at every leftmost non-overlapping occurrence. */
  function Split(s: String, sep: String): (r: seq<String>)
    requires |sep| > 0
    ensures |r| >= 1
    decreases |s|
  {
    if |s| < |sep| then [s]
    else if s[..|sep|] == sep then [[]] + Split(s[|sep|..], sep)
    else
      var rest := Split(s[1..], sep);
      [[s[0]] + rest[0]] + rest[1..]
  }

  /** `parts.join(sep)`. */
  function Join(parts: seq<String>, sep: String): String
  {
    if |parts| == 0 then []
    else if |parts| == 1 then parts[0]
    else parts[0] + sep + Join(parts[1..], sep)
  }

  lemma JoinConsChar(c: char, rest: seq<String>, sep: String)
    requires |rest| >= 1
    ensures Join([[c] + rest[0]] + rest[1..], sep) == [c] + Join(rest, sep)
  {
    var parts := [[c] + rest[0]] + rest[1..];
    assert parts[1..] == rest[1..];
  }

  /** Joining the pieces of a split with the same separator gives back the string. */
  lemma {:induction false} SplitJoin(s: String, sep: String)
    requires |sep| > 0
    ensures Join(Split(s, sep), sep) == s
    decreases |s|
  {
    if |s| < |sep| {
    } else if s[..|sep|] == sep {
      var rest := Split(s[|sep|..], sep);
      SplitJoin(s[|sep|..], sep);
      assert ([[]] + rest)[1..] == rest;
      assert s == s[..|sep|] + s[|sep|..];
    } else {
      var rest := Split(s[1..], sep);
      SplitJoin(s[1..], sep);
      JoinConsChar(s[0], rest, sep);
      assert s == [s[0]] + s[1..];
    }
  }

  /** The first piece of a split is a prefix of the string. */
  lemma {:induction false} SplitHeadIsPrefix(s: String, sep: String)
    requires |sep| > 0
    ensures |Split(s, sep)[0]| <= |s| && s[..|Split(s, sep)[0]|] == Split(s, sep)[0]
    decreases |s|
  {
    if |s| < |sep| {
    } else if s[..|sep|] == sep {
    } else {
      SplitHeadIsPrefix(s[1..], sep);
    }
  }

  /** An occurrence after the first character of `[c] + p` is an occurrence in `p`. */
  lemma OccursShift(c: char, p: String, sep: String, i: int)
    requires i > 0
    ensures OccursAt([c] + p, sep, i) <==> OccursAt(p, sep, i - 1)
  {
    var q := [c] + p;
    if i + |sep| <= |q| {
      assert q[i..i + |sep|] == p[i - 1..i - 1 + |sep|];
    }
  }

  lemma FreeCons(c: char, p: String, s: String, sep: String)
    requires |sep| > 0 && Free(p, sep)
    requires |p| + 1 <= |s| && s[..|p| + 1] == [c] + p
    requires !OccursAt(s, sep, 0)
    ensures Free([c] + p, sep)
  {
    forall i ensures !OccursAt([c] + p, sep, i) {
      if i > 0 {
        OccursShift(c, p, sep, i);
      }
    }
  }

  /** No piece of a split contains the separator. */
  lemma {:induction false} SplitPiecesFree(s: String, sep: String)
    requires |sep| > 0
    ensures forall k :: 0 <= k < |Split(s, sep)| ==> Free(Split(s, sep)[k], sep)
    decreases |s|
  {
    var r := Split(s, sep);
    if |s| < |sep| {
      forall i | OccursAt(s, sep, i) ensures false { }
    } else if s[..|sep|] == sep {
      SplitPiecesFree(s[|sep|..], sep);
      forall i | OccursAt([], sep, i) ensures false { }
    } else {
      var rest := Split(s[1..], sep);
      SplitPiecesFree(s[1..], sep);
      SplitHeadIsPrefix(s[1..], sep);
      assert s[..|rest[0]| + 1] == [s[0]] + s[1..][..|rest[0]|];
      FreeCons(s[0], rest[0], s, sep);
      forall k | 0 <= k < |r| ensures Free(r[k], sep) {
        if k > 0 { assert r[k] == rest[k]; }
      }
    }
  }

  /** A string without the separator splits into itself alone. */
  lemma {:induction false} SplitFree(p: String, sep: String)
    requires |sep| > 0 && Free(p, sep)
    ensures Split(p, sep) == [p]
    decreases |p|
  {
    if |p| < |sep| {
    } else {
      assert !OccursAt(p, sep, 0);
      assert [p[0]] + p[1..] == p;
      forall i ensures !OccursAt(p[1..], sep, i) {
        if i >= 0 {
          OccursShift(p[0], p[1..], sep, i + 1);
        }
      }
      SplitFree(p[1..], sep);
    }
  }

  /** The characters `String.prototype.trim` removes (the ASCII ones and two common Unicode ones). */
  predicate IsSpace(c: char)
  {
    c == ' ' || c == '\t' || c == '\n' || c == '\r' || c == '\U{B}' || c == '\U{C}'
    || c == '\U{A0}' || c == '\U{FEFF}'
  }

  /** Drops leading white space. */
  function TrimStart(s: String): (r: String)
    ensures |r| <= |s| && r == s[|s| - |r|..]
    ensures forall i :: 0 <= i < |s| - |r| ==> IsSpace(s[i])
    ensures |r| > 0 ==> !IsSpace(r[0])
    decreases |s|
  {
    if |s| > 0 && IsSpace(s[0]) then TrimStart(s[1..]) else s
  }

  /** Drops trailing white space. */
  function TrimEnd(s: String): (r: String)
    ensures |r| <= |s| && r == s[..|r|]
    ensures forall i :: |r| <= i < |s| ==> IsSpace(s[i])
    ensures |r| > 0 ==> !IsSpace(r[|r| - 1])
    decreases |s|
  {
    if |s| > 0 && IsSpace(s[|s| - 1]) then TrimEnd(s[..|s| - 1]) else s
  }

  /** `s.trim()`: the longest infix with no white space at either end. */
  function Trim(s: String): (r: String)
  {
    TrimEnd(TrimStart(s))
  }

  /** An ASCII upper-case letter. */
  predicate IsUpper(c: char)
  {
    'A' <= c <= 'Z'
  }

  function LowerChar(c: char): char
  {
    if IsUpper(c) then (c as int + 32) as char else c
  }

  /** `s.toLowerCase()` over the ASCII letters: no upper-case letter is left, every other
      character is kept in place, and each upper-case letter becomes its lower-case form. */
  function ToLower(s: String): (r: String)
    ensures |r| == |s|
    ensures forall i :: 0 <= i < |r| ==> !IsUpper(r[i])
    ensures forall i :: 0 <= i < |s| && !IsUpper(s[i]) ==> r[i] == s[i]
    ensures forall i :: 0 <= i < |s| && IsUpper(s[i]) ==> 'a' <= r[i] <= 'z' && r[i] as int - s[i] as int == 32
  {
    seq(|s|, i requires 0 <= i < |s| => LowerChar(s[i]))
  }

  /** Lower-casing twice is lower-casing once, and a string with no upper-case letter is
      its own lower-case form. */
  lemma ToLowerIdempotent(s: String)
    ensures ToLower(ToLower(s)) == ToLower(s)
    ensures (forall i :: 0 <= i < |s| ==> !IsUpper(s[i])) ==> ToLower(s) == s
  {
  }

  /** `s.filter(p)`. */
  function Filter<T(!new)>(p: T -> bool, s: seq<T>): (r: seq<T>)
    ensures |r| <= |s|
    decreases |s|
  {
    if s == [] then []
    else if p(s[0]) then [s[0]] + Filter(p, s[1..])
    else Filter(p, s[1..])
  }

  /** A filter keeps exactly the elements that satisfy the predicate. */
  lemma {:induction false} FilterMembers<T(!new)>(p: T -> bool, s: seq<T>)
    ensures forall x :: x in Filter(p, s) <==> x in s && p(x)
    decreases |s|
  {
    if s != [] {
      FilterMembers(p, s[1..]);
      assert s == [s[0]] + s[1..];
    }
  }

  /** The first element a filter keeps is the first element of `s` that satisfies `p`. */
  lemma {:induction false} FilterHead<T(!new)>(p: T -> bool, s: seq<T>)
    requires Filter(p, s) != []
    ensures exists j :: 0 <= j < |s| && p(s[j]) && Filter(p, s)[0] == s[j] && forall i :: 0 <= i < j ==> !p(s[i])
    decreases |s|
  {
    if p(s[0]) {
      assert 0 <= 0 < |s| && p(s[0]) && Filter(p, s)[0] == s[0];
    } else {
      FilterHead(p, s[1..]);
      var j :| 0 <= j < |s[1..]| && p(s[1..][j]) && Filter(p, s[1..])[0] == s[1..][j]
        && forall i :: 0 <= i < j ==> !p(s[1..][i]);
      assert forall i :: 0 <= i < j + 1 ==> !p(s[i]) by {
        forall i | 0 <= i < j + 1 ensures !p(s[i]) {
          if i > 0 { assert s[i] == s[1..][i - 1]; }
        }
      }
      assert p(s[j + 1]) && Filter(p, s)[0] == s[j + 1];
    }
  }

  /** Two filters whose predicates agree on the elements of `s` select the same elements in the same order. */
  lemma {:induction false} FilterCongruent<T(!new)>(p: T -> bool, q: T -> bool, s: seq<T>)
    requires forall x :: x in s ==> p(x) == q(x)
    ensures Filter(p, s) == Filter(q, s)
    decreases |s|
  {
    if s != [] {
      assert s[0] in s;
      forall x | x in s[1..] ensures p(x) == q(x) { assert x in s; }
      FilterCongruent(p, q, s[1..]);
    }
  }
}
