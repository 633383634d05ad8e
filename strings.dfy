/**
 * String primitives used by the TypeScript and Python sources: `join`, `split`,
 * `indexOf`/`in`, `startsWith`, `replace`, number-to-text and ASCII lower-casing.
 */
module Strings {
  import opened Wrappers

  /** `parts.join(sep)` (JavaScript) and `sep.join(parts)` (Python). */
  function Join(parts: seq<string>, sep: string): string
  {
    if |parts| == 0 then ""
    else if |parts| == 1 then parts[0]
    else parts[0] + sep + Join(parts[1..], sep)
  }

  /** `pat` occurs in `s` starting at index `k`. */
  predicate OccursAt(s: string, pat: string, k: nat)
  {
    k + |pat| <= |s| && s[k..k + |pat|] == pat
  }

  /** `s.startsWith(p)`. */
  predicate StartsWith(s: string, p: string)
  {
    |p| <= |s| && s[..|p|] == p
  }

  /** `s` contains `pat` somewhere. */
  ghost predicate Contains(s: string, pat: string)
  {
    exists k: nat :: OccursAt(s, pat, k)
  }

  /** The leftmost occurrence of a non-empty `pat` in `s` at or after `from` (`s.indexOf(pat, from)`). */
  function IndexOf(s: string, pat: string, from: nat): (r: Option<nat>)
    requires |pat| > 0
    ensures r.Some? ==> from <= r.value && OccursAt(s, pat, r.value)
    ensures r.Some? ==> forall k: nat :: from <= k < r.value ==> !OccursAt(s, pat, k)
    ensures r.None? ==> forall k: nat :: from <= k ==> !OccursAt(s, pat, k)
    decreases |s| - from
  {
    if from + |pat| > |s| then None
    else if s[from..from + |pat|] == pat then Some(from)
    else IndexOf(s, pat, from + 1)
  }

  /** The first index of a character of `cs` in `s`, or `|s|` when there is none. */
  function IndexOfAny(s: string, cs: set<char>): (k: nat)
    ensures k <= |s|
    ensures forall i :: 0 <= i < k ==> s[i] !in cs
    ensures k < |s| ==> s[k] in cs
  {
    if |s| == 0 then 0
    else if s[0] in cs then 0
    else 1 + IndexOfAny(s[1..], cs)
  }

  /** The last index of character `c` in `s`, if any (`str.rfind`). */
  function LastIndexOfChar(s: string, c: char): (r: Option<nat>)
    ensures r.Some? ==> r.value < |s| && s[r.value] == c
    ensures r.Some? ==> forall i :: r.value < i < |s| ==> s[i] != c
    ensures r.None? ==> forall i :: 0 <= i < |s| ==> s[i] != c
  {
    if |s| == 0 then None
    else if s[|s| - 1] == c then Some(|s| - 1)
    else LastIndexOfChar(s[..|s| - 1], c)
  }

  /**
   * `s.split(sep)` with a non-empty separator, in JavaScript and in Python alike:
   * occurrences are found from the left and do not overlap.
   */
  function Split(s: string, sep: string): (parts: seq<string>)
    requires |sep| > 0
    ensures |parts| >= 1
    decreases |s|
  {
    var r := IndexOf(s, sep, 0);
    if r.None? then [s]
    else [s[..r.value]] + Split(s[r.value + |sep|..], sep)
  }

  /** Python's `s.split(sep, maxsplit)`: at most `maxsplit` splits, the rest kept whole. */
  function SplitMax(s: string, sep: string, maxsplit: nat): (parts: seq<string>)
    requires |sep| > 0
    ensures 1 <= |parts| <= maxsplit + 1
    decreases maxsplit
  {
    if maxsplit == 0 then [s]
    else
      var r := IndexOf(s, sep, 0);
      if r.None? then [s]
      else [s[..r.value]] + SplitMax(s[r.value + |sep|..], sep, maxsplit - 1)
  }

  /** Joining what `Split` produced with the same separator gives the string back. */
  lemma {:induction false} JoinSplit(s: string, sep: string)
    requires |sep| > 0
    ensures Join(Split(s, sep), sep) == s
    decreases |s|
  {
    var r := IndexOf(s, sep, 0);
    if r.Some? {
      var k := r.value;
      var rest := s[k + |sep|..];
      JoinSplit(rest, sep);
      SplitStep(s, sep, k);
      JoinCons(s[..k], Split(rest, sep), sep);
      Slices(s, sep, k);
    } else {
      assert Split(s, sep) == [s];
    }
  }

  /** One step of `Split`: the part before the first separator, then the split of the rest. */
  lemma SplitStep(s: string, sep: string, k: nat)
    requires |sep| > 0 && IndexOf(s, sep, 0) == Some(k)
    ensures Split(s, sep) == [s[..k]] + Split(s[k + |sep|..], sep)
  {
    SplitUnfold(s, sep);
    var v := IndexOf(s, sep, 0).value;
    assert v == k;
    assert s[..v] == s[..k] && s[v + |sep|..] == s[k + |sep|..];
  }

  lemma SplitUnfold(s: string, sep: string)
    requires |sep| > 0 && IndexOf(s, sep, 0).Some?
    ensures Split(s, sep) == [s[..IndexOf(s, sep, 0).value]] + Split(s[IndexOf(s, sep, 0).value + |sep|..], sep)
  {
  }

  lemma Slices(s: string, sep: string, k: nat)
    requires OccursAt(s, sep, k)
    ensures s == s[..k] + sep + s[k + |sep|..]
  {
    assert s[..k] + s[k..k + |sep|] == s[..k + |sep|];
  }

  lemma JoinCons(p: string, tail: seq<string>, sep: string)
    requires |tail| >= 1
    ensures Join([p] + tail, sep) == p + sep + Join(tail, sep)
  {
    assert ([p] + tail)[1..] == tail;
  }

  /** No part produced by `Split` contains the separator. */
  lemma {:induction false} SplitPartsFree(s: string, sep: string, i: nat, k: nat)
    requires |sep| > 0 && i < |Split(s, sep)|
    ensures !OccursAt(Split(s, sep)[i], sep, k)
    decreases |s|
  {
    var r := IndexOf(s, sep, 0);
    if r.Some? {
      var j := r.value;
      var rest := s[j + |sep|..];
      SplitStep(s, sep, j);
      if i == 0 {
        if OccursAt(s[..j], sep, k) {
          PrefixOccurrence(s, j, sep, k);
          assert false;
        }
      } else {
        SplitPartsFree(rest, sep, i - 1, k);
      }
    } else {
      assert Split(s, sep) == [s];
    }
  }

  /** An occurrence inside the prefix `s[..j]` is an occurrence in `s` that ends by `j`. */
  lemma PrefixOccurrence(s: string, j: nat, pat: string, k: nat)
    requires j <= |s| && OccursAt(s[..j], pat, k)
    ensures OccursAt(s, pat, k) && k + |pat| <= j
  {
    assert s[..j][k..k + |pat|] == s[k..k + |pat|];
  }

  /** The first occurrence of `pat` is the one right after a prefix free of it. */
  lemma FirstOccurrence(s: string, pat: string, m: nat)
    requires |pat| > 0 && OccursAt(s, pat, m)
    requires forall k: nat :: k < m ==> !OccursAt(s, pat, k)
    ensures IndexOf(s, pat, 0) == Some(m)
  {
  }

  /**
   * The first two parts of a split: `a`, the text before the first separator,
   * and `b`, the text after it up to the next separator (or the end), which
   * `post` starts with. No separator starts inside either part.
   */
  lemma SplitFirstTwo(s: string, sep: string) returns (a: string, b: string, after: string, post: string)
    requires |sep| > 0 && IndexOf(s, sep, 0).Some?
    ensures |Split(s, sep)| >= 2 && Split(s, sep)[0] == a && Split(s, sep)[1] == b
    ensures s == a + sep + after && after == b + post
    ensures forall k: nat :: k < |a| ==> !OccursAt(s, sep, k)
    ensures forall k: nat :: k < |b| ==> !OccursAt(after, sep, k)
    ensures post == [] || StartsWith(post, sep)
  {
    var k := IndexOf(s, sep, 0).value;
    SplitStep(s, sep, k);
    after := s[k + |sep|..];
    Slices(s, sep, k);
    a := s[..k];
    var r := IndexOf(after, sep, 0);
    if r.None? {
      assert Split(after, sep) == [after];
      b, post := after, [];
    } else {
      var j := r.value;
      SplitStep(after, sep, j);
      b, post := after[..j], after[j..];
      assert after == b + post;
      assert post[..|sep|] == after[j..j + |sep|];
    }
  }

  /**
   * The first part `a` of a split at a character holds no such character,
   * and the text goes on after it (`cut`) either not at all or with that
   * character.
   */
  lemma SplitFirstChar(s: string, c: char) returns (a: string, cut: string)
    ensures Split(s, [c])[0] == a && s == a + cut
    ensures c !in a && (cut == [] || cut[0] == c)
  {
    var r := IndexOf(s, [c], 0);
    if r.None? {
      assert Split(s, [c]) == [s];
      forall i | 0 <= i < |s| ensures s[i] != c {
        assert !OccursAt(s, [c], i);
        assert s[i..i + 1] == [s[i]];
      }
      a, cut := s, [];
    } else {
      var k := r.value;
      SplitStep(s, [c], k);
      BeforeFirstChar(s, c);
      assert s[k..k + 1] == [c];
      a, cut := s[..k], s[k..];
    }
  }

  /** A text with no occurrence of `sep` is a single part. */
  lemma SplitNone(s: string, sep: string)
    requires |sep| > 0
    requires forall k: nat :: !OccursAt(s, sep, k)
    ensures Split(s, sep) == [s]
  {
    assert IndexOf(s, sep, 0) == None;
  }

  /** Splitting a one-character-separated join gives its parts back when none contains the separator. */
  lemma {:induction false} SplitJoinChar(parts: seq<string>, c: char)
    requires |parts| >= 1
    requires forall i :: 0 <= i < |parts| ==> c !in parts[i]
    ensures Split(Join(parts, [c]), [c]) == parts
    decreases |parts|
  {
    var p0 := parts[0];
    assert c !in p0;
    if |parts| == 1 {
      CharFreeNoOccurrence(p0, c);
      SplitNone(p0, [c]);
    } else {
      var rest := Join(parts[1..], [c]);
      var s := p0 + [c] + rest;
      assert Join(parts, [c]) == s;
      FirstCharOccurrence(p0, rest, c);
      assert s[..|p0|] == p0;
      assert s[|p0| + 1..] == rest;
      SplitStep(s, [c], |p0|);
      SplitJoinChar(parts[1..], c);
      assert parts == [p0] + parts[1..];
    }
  }

  /** A text without the character `c` has no occurrence of `[c]`. */
  lemma CharFreeNoOccurrence(p: string, c: char)
    requires c !in p
    ensures forall k: nat :: !OccursAt(p, [c], k)
  {
    forall k: nat ensures !OccursAt(p, [c], k) {
      if k + 1 <= |p| {
        assert p[k..k + 1] == [p[k]];
        assert p[k] in p;
      }
    }
  }

  /** In `p + [c] + rest` with `c` not in `p`, the first `[c]` is the one right after `p`. */
  lemma FirstCharOccurrence(p: string, rest: string, c: char)
    requires c !in p
    ensures IndexOf(p + [c] + rest, [c], 0) == Some(|p|)
  {
    var s := p + [c] + rest;
    forall k: nat | k < |p| ensures !OccursAt(s, [c], k) {
      assert s[k..k + 1] == [p[k]];
      assert p[k] in p;
    }
    assert s[|p|..|p| + 1] == [c];
    FirstOccurrence(s, [c], |p|);
  }

  /** Before the first occurrence of a one-character separator there is no such character. */
  lemma BeforeFirstChar(s: string, c: char)
    requires IndexOf(s, [c], 0).Some?
    ensures c !in s[..IndexOf(s, [c], 0).value]
  {
    var k := IndexOf(s, [c], 0).value;
    forall i | 0 <= i < k ensures s[i] != c {
      assert !OccursAt(s, [c], i);
      assert s[i..i + 1] == [s[i]];
    }
  }

  /** A join of two or more parts ends with the separator and the last part. */
  lemma {:induction false} JoinSnoc(parts: seq<string>, sep: string)
    requires |parts| >= 2
    ensures Join(parts, sep) == Join(parts[..|parts| - 1], sep) + sep + parts[|parts| - 1]
    decreases |parts|
  {
    var init := parts[..|parts| - 1];
    var x := parts[|parts| - 1];
    if |parts| > 2 {
      JoinSnoc(parts[1..], sep);
      assert parts[1..][..|parts[1..]| - 1] == init[1..];
      assert Join(init, sep) == parts[0] + sep + Join(init[1..], sep);
    } else {
      assert init == [parts[0]];
    }
  }

  /** When the separator occurs, the text ends with it followed by the last part. */
  lemma SplitLastPart(s: string, sep: string)
    requires |sep| > 0 && IndexOf(s, sep, 0).Some?
    ensures exists pre :: s == pre + sep + Split(s, sep)[|Split(s, sep)| - 1]
  {
    var parts := Split(s, sep);
    assert |parts| >= 2;
    JoinSplit(s, sep);
    JoinSnoc(parts, sep);
    var pre := Join(parts[..|parts| - 1], sep);
    assert s == pre + sep + parts[|parts| - 1];
  }

  /** Three parts from two splits at a character: the text is the parts with that character between them. */
  lemma SplitMaxTwoChar(s: string, c: char)
    requires |SplitMax(s, [c], 2)| >= 3
    ensures s == SplitMax(s, [c], 2)[0] + [c] + SplitMax(s, [c], 2)[1] + [c] + SplitMax(s, [c], 2)[2]
    ensures c !in SplitMax(s, [c], 2)[0] && c !in SplitMax(s, [c], 2)[1]
  {
    var r := IndexOf(s, [c], 0);
    assert r.Some?;
    var k := r.value;
    var rest := s[k + 1..];
    SplitMaxStep(s, [c], 2, k);
    var r' := IndexOf(rest, [c], 0);
    assert r'.Some?;
    var j := r'.value;
    SplitMaxStep(rest, [c], 1, j);
    var a, b, d := s[..k], rest[..j], rest[j + 1..];
    assert SplitMax(s, [c], 2) == [a, b, d];
    BeforeFirstChar(s, c);
    BeforeFirstChar(rest, c);
    Slices(s, [c], k);
    Slices(rest, [c], j);
    Regroup(s, a, b, d, [c]);
  }

  /** `a + x + (b + x + d)` written without the inner parentheses. */
  lemma Regroup(s: string, a: string, b: string, d: string, x: string)
    requires s == a + x + (b + x + d)
    ensures s == a + x + b + x + d
  {
  }

  /** One step of `SplitMax` while splits remain. */
  lemma SplitMaxStep(s: string, sep: string, maxsplit: nat, k: nat)
    requires |sep| > 0 && maxsplit > 0 && IndexOf(s, sep, 0) == Some(k)
    ensures SplitMax(s, sep, maxsplit) == [s[..k]] + SplitMax(s[k + |sep|..], sep, maxsplit - 1)
  {
    assert IndexOf(s, sep, 0).value == k;
  }

  /** `parts.filter((p) => p)`: the non-empty parts, in order. */
  function NonEmptyParts(parts: seq<string>): (r: seq<string>)
    ensures |r| <= |parts|
    ensures forall i :: 0 <= i < |r| ==> r[i] != ""
  {
    if |parts| == 0 then []
    else NonEmptyParts(parts[..|parts| - 1]) + (if parts[|parts| - 1] == "" then [] else [parts[|parts| - 1]])
  }

  lemma {:induction false} NonEmptyPartsAppend(a: seq<string>, b: seq<string>)
    ensures NonEmptyParts(a + b) == NonEmptyParts(a) + NonEmptyParts(b)
    decreases |b|
  {
    if |b| == 0 {
      assert a + b == a;
    } else {
      var b' := b[..|b| - 1];
      assert (a + b)[..|a + b| - 1] == a + b';
      assert (a + b)[|a + b| - 1] == b[|b| - 1];
      NonEmptyPartsAppend(a, b');
    }
  }

  lemma {:induction false} NonEmptyPartsKeep(parts: seq<string>)
    requires forall i :: 0 <= i < |parts| ==> parts[i] != ""
    ensures NonEmptyParts(parts) == parts
    decreases |parts|
  {
    if |parts| > 0 {
      NonEmptyPartsKeep(parts[..|parts| - 1]);
      assert parts == parts[..|parts| - 1] + [parts[|parts| - 1]];
    }
  }

  /** A join starts with its first part. */
  lemma JoinStarts(parts: seq<string>, sep: string)
    requires |parts| > 0
    ensures StartsWith(Join(parts, sep), parts[0])
  {
    if |parts| > 1 {
      assert Join(parts, sep) == parts[0] + (sep + Join(parts[1..], sep));
    }
  }

  /** Every part of a join appears in it. */
  lemma {:induction false} JoinContains(parts: seq<string>, sep: string, i: nat)
    requires i < |parts|
    ensures Contains(Join(parts, sep), parts[i])
    decreases i
  {
    var j := Join(parts, sep);
    if i == 0 {
      if |parts| == 1 {
        assert OccursAt(j, parts[0], 0);
      } else {
        assert j == parts[0] + (sep + Join(parts[1..], sep));
        assert OccursAt(j, parts[0], 0);
      }
    } else {
      var rest := Join(parts[1..], sep);
      JoinContains(parts[1..], sep, i - 1);
      var k: nat :| OccursAt(rest, parts[i], k);
      var pre := parts[0] + sep;
      assert j == pre + rest;
      assert j[|pre| + k..|pre| + k + |parts[i]|] == rest[k..k + |parts[i]|];
      assert OccursAt(j, parts[i], |pre| + k);
    }
  }

  /** `s || fallback` on a string. */
  function OrDefault(s: string, fallback: string): string
  {
    if s == "" then fallback else s
  }

  /** The decimal text of a natural number, as `String(n)` and `str(n)` print it. */
  function NatToString(n: nat): (r: string)
    ensures |r| > 0
    ensures forall i :: 0 <= i < |r| ==> '0' <= r[i] <= '9'
  {
    if n < 10 then [DigitChar(n)]
    else NatToString(n / 10) + [DigitChar(n % 10)]
  }

  function DigitChar(d: nat): (c: char)
    requires d < 10
    ensures '0' <= c <= '9'
  {
    ['0', '1', '2', '3', '4', '5', '6', '7', '8', '9'][d]
  }

  /** The decimal text of an integer; negative numbers get a leading minus sign. */
  function IntToString(n: int): string
  {
    if n < 0 then "-" + NatToString(-n) else NatToString(n)
  }

  /** A rendered integer holds only digits and a leading minus sign. */
  lemma IntToStringChars(n: int)
    ensures forall i :: 0 <= i < |IntToString(n)| ==> IntToString(n)[i] == '-' || '0' <= IntToString(n)[i] <= '9'
  {
    if n < 0 {
      assert forall i :: 1 <= i < |IntToString(n)| ==> IntToString(n)[i] == NatToString(-n)[i - 1];
    }
  }

  /** ASCII lower-casing (`str.lower()` on host names, `URL.hostname`). */
  function ToLowerAscii(s: string): (r: string)
    ensures |r| == |s|
  {
    if |s| == 0 then ""
    else [if 'A' <= s[0] <= 'Z' then (s[0] as int + 32) as char else s[0]] + ToLowerAscii(s[1..])
  }

  /** Lower-casing leaves a text without capital letters as it is. */
  lemma {:induction false} ToLowerAsciiNoUpper(s: string)
    requires forall i :: 0 <= i < |s| ==> !('A' <= s[i] <= 'Z')
    ensures ToLowerAscii(s) == s
    decreases |s|
  {
    if |s| > 0 {
      ToLowerAsciiNoUpper(s[1..]);
      assert s == [s[0]] + s[1..];
    }
  }

  /** Python's `s.replace(c, rep)` for a single-character pattern. */
  function ReplaceChar(s: string, c: char, rep: string): (r: string)
  {
    if |s| == 0 then ""
    else (if s[0] == c then rep else [s[0]]) + ReplaceChar(s[1..], c, rep)
  }

  /** `ReplaceChar` distributes over concatenation. */
  lemma {:induction false} ReplaceCharAppend(a: string, b: string, c: char, rep: string)
    ensures ReplaceChar(a + b, c, rep) == ReplaceChar(a, c, rep) + ReplaceChar(b, c, rep)
    decreases |a|
  {
    if |a| == 0 {
      assert a + b == b;
    } else {
      assert (a + b)[1..] == a[1..] + b;
      ReplaceCharAppend(a[1..], b, c, rep);
    }
  }

  /** A character in neither the text nor the replacement is not in the result. */
  lemma {:induction false} ReplaceCharKeepsOut(s: string, c: char, rep: string, d: char)
    requires d !in s && d !in rep
    ensures d !in ReplaceChar(s, c, rep)
    decreases |s|
  {
    if |s| > 0 {
      assert d !in s[1..] by {
        forall i | 0 <= i < |s| - 1 ensures s[1..][i] != d {
          assert s[1..][i] == s[i + 1] && s[i + 1] in s;
        }
      }
      ReplaceCharKeepsOut(s[1..], c, rep, d);
    }
  }

  lemma {:induction false} ReplaceCharRemoves(s: string, c: char, rep: string)
    requires c !in rep
    ensures c !in ReplaceChar(s, c, rep)
    decreases |s|
  {
    if |s| > 0 {
      ReplaceCharRemoves(s[1..], c, rep);
    }
  }
}
