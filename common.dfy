/** Values shared by every part of the dashboard model: optional values, the
    results of operations that can raise, and the Python exceptions they raise. */
module Common {

  datatype Option<+T> = None | Some(value: T)

  /** A Python exception that aborts the operation that raised it. */
  datatype Error =
    | ConnectionError(message: string)  // a ticket fetch answered with a status other than 200
    | KeyError(key: string)             // a dictionary lookup of a missing key
    | IndexError                        // `xs[0]` on an empty list
    | AttributeError(name: string)      // a string method looked up on a value that is not a string

  /** Either the value an operation returns or the exception it raises. */
  datatype Result<+T> = Success(value: T) | Failure(error: Error)

  /** HTTP status that the fetch functions accept. */
  const HTTP_OK: int := 200

  /** ASCII case folding, the part of Python's `str.lower` that this model keeps. */
  function LowerChar(c: char): (d: char)
    ensures 'A' <= c <= 'Z' ==> d as int == c as int + 32
    ensures !('A' <= c <= 'Z') ==> d == c
  {
    if 'A' <= c <= 'Z' then (c as int + 32) as char else c
  }

  function Lower(s: string): (r: string)
    ensures |r| == |s|
    ensures forall i :: 0 <= i < |s| ==> r[i] == LowerChar(s[i])
  {
    if s == [] then [] else [LowerChar(s[0])] + Lower(s[1..])
  }

  /** Python's `sub in s` on strings: `sub` occurs as a contiguous block of `s`. */
  predicate Contains(s: string, sub: string)
    decreases |s|
  {
    sub <= s || (s != [] && Contains(s[1..], sub))
  }

  /** The characters Python's `str.isspace` accepts: those that the
      argument-less `str.split` separates words on. */
  predicate IsSpace(c: char)
  {
    InRanges(c as int, WHITESPACE)
  }

  /** The code points of Python's whitespace, as inclusive ranges. */
  const WHITESPACE: seq<(int, int)> := [
    (0x09, 0x0D), (0x1C, 0x20), (0x85, 0x85), (0xA0, 0xA0), (0x1680, 0x1680),
    (0x2000, 0x200A), (0x2028, 0x2029), (0x202F, 0x202F), (0x205F, 0x205F), (0x3000, 0x3000)]

  /** `code` lies in one of the inclusive ranges. */
  predicate InRanges(code: int, ranges: seq<(int, int)>)
  {
    ranges != [] && ((ranges[0].0 <= code <= ranges[0].1) || InRanges(code, ranges[1..]))
  }

  /** No element of `s` occurs twice. */
  ghost predicate NoDuplicates<T>(s: seq<T>)
  {
    forall i, j :: 0 <= i < j < |s| ==> s[i] != s[j]
  }

  /** A duplicate-free sequence whose elements all occur in `b` is no longer than `b`. */
  lemma {:induction false} SubsetNoLonger<T>(a: seq<T>, b: seq<T>)
    requires NoDuplicates(a)
    requires forall x :: x in a ==> x in b
    ensures |a| <= |b|
    decreases |a|
  {
    if a != [] {
      assert a[0] in b;
      var j :| 0 <= j < |b| && b[j] == a[0];
      var b' := b[..j] + b[j + 1..];
      forall x | x in a[1..] ensures x in b'
      {
        var i :| 0 <= i < |a[1..]| && a[1..][i] == x;
        assert a[i + 1] == x;
        assert x in b;
        var k :| 0 <= k < |b| && b[k] == x;
        if k < j {
          assert b'[k] == x;
        } else {
          assert k != j;
          assert b'[k - 1] == x;
        }
      }
      SubsetNoLonger(a[1..], b');
    }
  }

  /** Two duplicate-free sequences with the same elements have the same length:
      they list the same elements, possibly in another order. */
  lemma SameElementsSameLength<T>(a: seq<T>, b: seq<T>)
    requires NoDuplicates(a) && NoDuplicates(b)
    requires forall x :: x in a <==> x in b
    ensures |a| == |b|
  {
    SubsetNoLonger(a, b);
    SubsetNoLonger(b, a);
  }

  /** `sub` is `s` with some elements left out and the rest kept in order. */
  predicate IsSubsequence<T(==)>(sub: seq<T>, s: seq<T>)
    decreases |s|
  {
    if sub == [] then true
    else if s == [] then false
    else (sub[|sub| - 1] == s[|s| - 1] && IsSubsequence(sub[..|sub| - 1], s[..|s| - 1]))
         || IsSubsequence(sub, s[..|s| - 1])
  }

  /** An element put in front of a sequence can be left out of the subsequence. */
  lemma {:induction false} SubsequenceSkipFirst<T>(x: T, sub: seq<T>, s: seq<T>)
    requires IsSubsequence(sub, s)
    ensures IsSubsequence(sub, [x] + s)
    decreases |s|
  {
    if sub != [] {
      assert ([x] + s)[..|[x] + s| - 1] == [x] + s[..|s| - 1];
      if sub[|sub| - 1] == s[|s| - 1] && IsSubsequence(sub[..|sub| - 1], s[..|s| - 1]) {
        SubsequenceSkipFirst(x, sub[..|sub| - 1], s[..|s| - 1]);
      } else {
        SubsequenceSkipFirst(x, sub, s[..|s| - 1]);
      }
    }
  }

  /** An element put in front of both sequences keeps the one a subsequence of the other. */
  lemma {:induction false} SubsequenceConsBoth<T>(x: T, sub: seq<T>, s: seq<T>)
    requires IsSubsequence(sub, s)
    ensures IsSubsequence([x] + sub, [x] + s)
    decreases |s|
  {
    if s == [] {
      assert sub == [];
      assert ([x] + sub)[..0] == [];
    } else {
      assert ([x] + s)[..|[x] + s| - 1] == [x] + s[..|s| - 1];
      if sub == [] {
        SubsequenceConsBoth(x, sub, s[..|s| - 1]);
      } else {
        assert ([x] + sub)[..|[x] + sub| - 1] == [x] + sub[..|sub| - 1];
        if sub[|sub| - 1] == s[|s| - 1] && IsSubsequence(sub[..|sub| - 1], s[..|s| - 1]) {
          SubsequenceConsBoth(x, sub[..|sub| - 1], s[..|s| - 1]);
        } else {
          SubsequenceConsBoth(x, sub, s[..|s| - 1]);
        }
      }
    }
  }

  /** Case folding works character by character, so it distributes over concatenation. */
  lemma LowerAppend(a: string, b: string)
    ensures Lower(a + b) == Lower(a) + Lower(b)
  {
  }

  /** `sub` occurs in `s` starting at position `i`. */
  predicate OccursAt(s: string, sub: string, i: int)
  {
    0 <= i && i + |sub| <= |s| && s[i..i + |sub|] == sub
  }

  /** `Contains` agrees with the positional reading of Python's `in`: some slice of `s` equals `sub`. */
  lemma {:induction false} ContainsIff(s: string, sub: string)
    ensures Contains(s, sub) <==> exists i :: OccursAt(s, sub, i)
  {
    if Contains(s, sub) {
      var i := ContainsWitness(s, sub);
    }
    if exists i :: OccursAt(s, sub, i) {
      var i :| OccursAt(s, sub, i);
      OccursAtContains(s, sub, i);
    }
  }

  /** A block found by `Contains` sits at some position. */
  lemma {:induction false} ContainsWitness(s: string, sub: string) returns (i: int)
    requires Contains(s, sub)
    ensures OccursAt(s, sub, i)
    decreases |s|
  {
    if sub <= s {
      i := 0;
    } else {
      var j := ContainsWitness(s[1..], sub);
      assert s[1..][j..j + |sub|] == s[j + 1..j + 1 + |sub|];
      i := j + 1;
    }
  }

  /** A block at position `i` is found by `Contains`. */
  lemma {:induction false} OccursAtContains(s: string, sub: string, i: int)
    requires OccursAt(s, sub, i)
    ensures Contains(s, sub)
    decreases i
  {
    if i == 0 {
      assert sub <= s;
    } else {
      assert s[1..][i - 1..i - 1 + |sub|] == s[i..i + |sub|];
      OccursAtContains(s[1..], sub, i - 1);
    }
  }

  /** A string occurs in any string that has it as an infix. */
  lemma {:induction false} ContainsInfix(x: string, sub: string, y: string)
    ensures Contains(x + sub + y, sub)
  {
    if x == [] {
      assert x + sub + y == sub + y;
    } else {
      assert (x + sub + y)[1..] == x[1..] + sub + y;
      ContainsInfix(x[1..], sub, y);
    }
  }
}
