/**
 * The few `java.lang.String` operations the schedule parser and the UI
 * filters rely on, written out: `trim`, `contains`, `replace(label, "")`,
 * `split(sep)[0]`, an ASCII `toLowerCase` and `Integer.toString`.
 */
module JavaStrings {

  /** `String.trim` treats every character up to U+0020 as white space. */
  predicate IsJavaSpace(c: char)
  {
    c <= ' '
  }

  /** `sub` occurs in `s` starting at index `i`. */
  ghost predicate OccursAt(s: string, sub: string, i: int)
  {
    0 <= i && i + |sub| <= |s| && s[i..i + |sub|] == sub
  }

  // ---------------------------------------------------------------------------
  // trim
  // ---------------------------------------------------------------------------

  /** The first loop of `String.trim`: how many leading white-space characters `s` has. */
  function LeadingSpaces(s: string): (st: nat)
    ensures st <= |s|
  {
    if s == [] || !IsJavaSpace(s[0]) then 0 else 1 + LeadingSpaces(s[1..])
  }

  /** The leading white space ends at the first character that is not white space. */
  lemma {:induction false} LeadingSpacesStop(s: string)
    ensures forall k :: 0 <= k < LeadingSpaces(s) ==> IsJavaSpace(s[k])
    ensures LeadingSpaces(s) < |s| ==> !IsJavaSpace(s[LeadingSpaces(s)])
  {
    if s != [] && IsJavaSpace(s[0]) {
      LeadingSpacesStop(s[1..]);
      forall k | 0 <= k < LeadingSpaces(s) ensures IsJavaSpace(s[k]) {
        if k > 0 {
          assert s[k] == s[1..][k - 1];
        }
      }
    }
  }

  /** The second loop of `String.trim`: shrink the end of `s` past trailing white space, never below `st`. */
  function ContentEnd(s: string, st: nat): (len: nat)
    requires st <= |s|
    ensures st <= len <= |s|
    decreases |s|
  {
    if |s| == st || !IsJavaSpace(s[|s| - 1]) then |s| else ContentEnd(s[..|s| - 1], st)
  }

  /** Only white space follows the content end, and the content ends in a non-space. */
  lemma {:induction false} ContentEndStop(s: string, st: nat)
    requires st <= |s|
    ensures forall k :: ContentEnd(s, st) <= k < |s| ==> IsJavaSpace(s[k])
    ensures ContentEnd(s, st) > st ==> !IsJavaSpace(s[ContentEnd(s, st) - 1])
    decreases |s|
  {
    if |s| != st && IsJavaSpace(s[|s| - 1]) {
      var shorter := s[..|s| - 1];
      ContentEndStop(shorter, st);
      forall k | ContentEnd(s, st) <= k < |s| ensures IsJavaSpace(s[k]) {
        if k < |s| - 1 {
          assert s[k] == shorter[k];
        }
      }
      if ContentEnd(s, st) > st {
        assert s[ContentEnd(s, st) - 1] == shorter[ContentEnd(s, st) - 1];
      }
    }
  }

  /** `t` is what remains of `s` once `i` leading and some trailing white-space characters are cut off. */
  ghost predicate CutFrom(s: string, i: int, t: string)
  {
    && 0 <= i && i + |t| <= |s| && s[i..i + |t|] == t
    && (forall k :: 0 <= k < i ==> IsJavaSpace(s[k]))
    && (forall k :: i + |t| <= k < |s| ==> IsJavaSpace(s[k]))
  }

  /** Neither end of `t` is white space. */
  predicate IsTrimmed(t: string)
  {
    t == [] || (!IsJavaSpace(t[0]) && !IsJavaSpace(t[|t| - 1]))
  }

  /** `String.trim`: `s` without its leading and trailing white space. */
  function Trim(s: string): (r: string)
    ensures IsTrimmed(r) && |r| <= |s|
  {
    var st := LeadingSpaces(s);
    LeadingSpacesStop(s);
    ContentEndStop(s, st);
    s[st..ContentEnd(s, st)]
  }

  /** Trim cuts only white space, and all of it, off the two ends. */
  lemma TrimCuts(s: string)
    ensures CutFrom(s, LeadingSpaces(s), Trim(s))
  {
    LeadingSpacesStop(s);
    ContentEndStop(s, LeadingSpaces(s));
  }

  /** Trim is the only way to cut white space off both ends that leaves no white space at either end. */
  lemma {:induction false} TrimUnique(s: string, i: int, t: string)
    requires CutFrom(s, i, t) && IsTrimmed(t)
    ensures t == Trim(s)
  {
    var st := LeadingSpaces(s);
    var len := ContentEnd(s, st);
    LeadingSpacesStop(s);
    ContentEndStop(s, st);
    if t == [] {
      assert forall k :: 0 <= k < |s| ==> IsJavaSpace(s[k]) by {
        forall k | 0 <= k < |s| ensures IsJavaSpace(s[k]) {
          if k < i {} else { assert i + |t| <= k; }
        }
      }
      assert st == |s|;
    } else {
      assert t[0] == s[i];
      assert !IsJavaSpace(s[i]);
      assert st == i;
      assert t[|t| - 1] == s[i + |t| - 1];
      assert len == i + |t|;
    }
  }

  /** A string without white space at either end is left as it is by trim. */
  lemma TrimOfTrimmed(s: string)
    requires IsTrimmed(s)
    ensures Trim(s) == s
  {
    assert s[0..|s|] == s;
    TrimUnique(s, 0, s);
  }

  /** Trimming twice is trimming once. */
  lemma TrimIdempotent(s: string)
    ensures Trim(Trim(s)) == Trim(s)
  {
    TrimOfTrimmed(Trim(s));
  }

  // ---------------------------------------------------------------------------
  // contains
  // ---------------------------------------------------------------------------

  /** `String.contains`: does `sub` occur anywhere in `s`? */
  function Contains(s: string, sub: string): bool
    decreases |s|
  {
    |sub| <= |s| && (s[..|sub|] == sub || Contains(s[1..], sub))
  }

  /** Contains holds exactly when there is an index where `sub` occurs. */
  lemma {:induction false} ContainsIff(s: string, sub: string)
    ensures Contains(s, sub) <==> exists i :: OccursAt(s, sub, i)
    decreases |s|
  {
    if |sub| <= |s| && s[..|sub|] != sub {
      ContainsIff(s[1..], sub);
      if exists i :: OccursAt(s[1..], sub, i) {
        var i :| OccursAt(s[1..], sub, i);
        assert s[i + 1..i + 1 + |sub|] == s[1..][i..i + |sub|];
        assert OccursAt(s, sub, i + 1);
      }
      if exists i :: OccursAt(s, sub, i) {
        var i :| OccursAt(s, sub, i);
        assert i != 0;
        assert s[1..][i - 1..i - 1 + |sub|] == s[i..i + |sub|];
        assert OccursAt(s[1..], sub, i - 1);
      }
    } else if |sub| <= |s| {
      assert OccursAt(s, sub, 0);
    }
  }

  // ---------------------------------------------------------------------------
  // replace(label, "")
  // ---------------------------------------------------------------------------

  /**
   * `s.replace(pat, "")`: scanning left to right, every occurrence of `pat`
   * that does not overlap an earlier removed one is removed.
   */
  function RemoveAll(s: string, pat: string): (r: string)
    requires pat != []
    ensures |r| <= |s|
    ensures !Contains(s, pat) ==> r == s
    decreases |s|
  {
    if |s| < |pat| then s
    else if s[..|pat|] == pat then RemoveAll(s[|pat|..], pat)
    else [s[0]] + RemoveAll(s[1..], pat)
  }

  /** A label in front of a text without further copies of it is stripped off entirely. */
  lemma RemoveLeadingLabel(tag: string, t: string)
    requires tag != [] && !Contains(t, tag)
    ensures RemoveAll(tag + t, tag) == t
  {
    assert (tag + t)[..|tag|] == tag;
    assert (tag + t)[|tag|..] == t;
  }

  /** `pat` does not occur in `s` at any index before `i`, checked one index at a time. */
  ghost predicate NoneBefore(s: string, pat: string, i: nat)
    decreases i
  {
    i == 0 || (s != [] && !OccursAt(s, pat, 0) && NoneBefore(s[1..], pat, i - 1))
  }

  /** No occurrence at any index below `i` is `NoneBefore`. */
  lemma {:induction false} NoneBeforeOfForall(s: string, pat: string, i: nat)
    requires i + |pat| <= |s|
    requires forall j :: 0 <= j < i ==> !OccursAt(s, pat, j)
    ensures NoneBefore(s, pat, i)
    decreases i
  {
    if i > 0 {
      var tail := s[1..];
      forall j | 0 <= j < i - 1 ensures !OccursAt(tail, pat, j) {
        assert !OccursAt(s, pat, j + 1);
        assert tail[j..j + |pat|] == s[j + 1..j + 1 + |pat|];
      }
      NoneBeforeOfForall(tail, pat, i - 1);
    }
  }

  /** A match at the front is removed and the scan goes on after it. */
  lemma RemoveAllAtStart(s: string, pat: string)
    requires pat != [] && OccursAt(s, pat, 0)
    ensures RemoveAll(s, pat) == s[..0] + RemoveAll(s[|pat|..], pat)
  {
    assert s[..|pat|] == s[0..|pat|];
  }

  /** No match at the front: the first character is kept and the scan moves on by one. */
  lemma RemoveAllKeepsFirst(s: string, pat: string)
    requires pat != [] && |pat| <= |s| && !OccursAt(s, pat, 0)
    ensures RemoveAll(s, pat) == [s[0]] + RemoveAll(s[1..], pat)
  {
    assert s[..|pat|] == s[0..|pat|];
  }

  /** Putting the first character back in front of a prefix of the rest. */
  lemma ConsPrefix(s: string, i: nat, rest: string)
    requires 0 < i <= |s|
    ensures [s[0]] + (s[1..][..i - 1] + rest) == s[..i] + rest
  {
    assert [s[0]] + s[1..][..i - 1] == s[..i];
  }

  /** An occurrence at `i > 0` is one at `i - 1` in `s[1..]`. */
  lemma OccursInTail(s: string, pat: string, i: nat)
    requires 0 < i && OccursAt(s, pat, i)
    ensures OccursAt(s[1..], pat, i - 1) && s[1..][i - 1 + |pat|..] == s[i + |pat|..]
  {
    assert s[1..][i - 1..i - 1 + |pat|] == s[i..i + |pat|];
  }

  /** `RemoveAllAtFirst`, with the absence of earlier occurrences given one index at a time. */
  lemma {:induction false} RemoveAllAtFirstFrom(s: string, pat: string, i: nat, rest: string)
    requires pat != [] && OccursAt(s, pat, i) && NoneBefore(s, pat, i) && rest == s[i + |pat|..]
    ensures RemoveAll(s, pat) == s[..i] + RemoveAll(rest, pat)
    decreases i
  {
    if i == 0 {
      RemoveAllAtStart(s, pat);
    } else {
      OccursInTail(s, pat, i);
      RemoveAllAtFirstFrom(s[1..], pat, i - 1, rest);
      RemoveAllKeepsFirst(s, pat);
      ConsPrefix(s, i, RemoveAll(rest, pat));
    }
  }

  /**
   * The first occurrence goes, with the text before it kept, and the scan goes
   * on after it: the `indexOf` loop of `replace`. With the identity on a text
   * without the label, this pins down every removal.
   */
  lemma RemoveAllAtFirst(s: string, pat: string, i: nat)
    requires pat != [] && OccursAt(s, pat, i)
    requires forall j :: 0 <= j < i ==> !OccursAt(s, pat, j)
    ensures RemoveAll(s, pat) == s[..i] + RemoveAll(s[i + |pat|..], pat)
  {
    NoneBeforeOfForall(s, pat, i);
    RemoveAllAtFirstFrom(s, pat, i, s[i + |pat|..]);
  }

  // ---------------------------------------------------------------------------
  // split(sep)[0]
  // ---------------------------------------------------------------------------

  /**
   * The first piece of `s.split(sep)` for a separator without regular-expression
   * metacharacters: everything before the first occurrence of `sep`, or all of `s`.
   */
  function PrefixBefore(s: string, sep: string): (r: string)
    requires sep != []
    ensures r <= s
    decreases |s|
  {
    if |s| < |sep| then s
    else if s[..|sep|] == sep then []
    else [s[0]] + PrefixBefore(s[1..], sep)
  }

  /** Past the first character, the occurrences in `s` are those in `s[1..]`, shifted by one. */
  lemma OccursAfterFirst(s: string, sub: string)
    requires s != []
    ensures forall i :: 1 <= i ==> (OccursAt(s, sub, i) <==> OccursAt(s[1..], sub, i - 1))
  {
    forall i | 1 <= i
      ensures OccursAt(s, sub, i) <==> OccursAt(s[1..], sub, i - 1)
    {
      if i + |sub| <= |s| {
        var inS, inTail := s[i..i + |sub|], s[1..][i - 1..i - 1 + |sub|];
        forall m | 0 <= m < |sub| ensures inS[m] == inTail[m] {
          assert inTail[m] == s[1..][i - 1 + m] == s[i + m];
        }
        assert inS == inTail;
      }
    }
  }

  /** The prefix stops at the first occurrence of the separator: none starts inside it, one starts right after it. */
  lemma {:induction false} PrefixBeforeFirst(s: string, sep: string)
    requires sep != []
    ensures forall i :: 0 <= i < |PrefixBefore(s, sep)| ==> !OccursAt(s, sep, i)
    ensures |PrefixBefore(s, sep)| < |s| ==> OccursAt(s, sep, |PrefixBefore(s, sep)|)
    decreases |s|
  {
    if |sep| <= |s| && s[..|sep|] != sep {
      PrefixBeforeFirst(s[1..], sep);
      OccursAfterFirst(s, sep);
    }
  }

  /** The prefix is the whole string exactly when the separator does not occur in it. */
  lemma PrefixBeforeWhole(s: string, sep: string)
    requires sep != []
    ensures |PrefixBefore(s, sep)| == |s| <==> !Contains(s, sep)
  {
    PrefixBeforeFirst(s, sep);
    ContainsIff(s, sep);
  }

  /** Nothing cut out of the part before the first separator contains the separator. */
  lemma PrefixBeforeSliceFree(s: string, sep: string, lo: int, hi: int)
    requires sep != []
    requires 0 <= lo <= hi <= |PrefixBefore(s, sep)|
    ensures !Contains(PrefixBefore(s, sep)[lo..hi], sep)
  {
    var p := PrefixBefore(s, sep);
    PrefixBeforeFirst(s, sep);
    forall j | 0 <= j && j + |sep| <= hi - lo ensures !OccursAt(p[lo..hi], sep, j) {
      var inSlice, inS := p[lo..hi][j..j + |sep|], s[lo + j..lo + j + |sep|];
      forall m | 0 <= m < |sep| ensures inSlice[m] == inS[m] {
        assert p[lo..hi][j + m] == p[lo + j + m] == s[lo + j + m];
      }
      assert inSlice == inS;
      assert !OccursAt(s, sep, lo + j);
    }
    ContainsIff(p[lo..hi], sep);
  }

  /** The part before the first separator, once trimmed, still holds no separator. */
  lemma TrimmedPrefixFree(s: string, sep: string)
    requires sep != []
    ensures !Contains(Trim(PrefixBefore(s, sep)), sep)
  {
    var before := PrefixBefore(s, sep);
    var st := LeadingSpaces(before);
    PrefixBeforeSliceFree(s, sep, st, ContentEnd(before, st));
  }

  // ---------------------------------------------------------------------------
  // toLowerCase, Integer.toString
  // ---------------------------------------------------------------------------

  /** Lower case for the ASCII letters; every other character is kept. */
  function LowerChar(c: char): char
  {
    if IsUpper(c) then (c as int + 32) as char else c
  }

  /** An ASCII capital letter. */
  predicate IsUpper(c: char)
  {
    'A' <= c <= 'Z'
  }

  /**
   * `toLowerCase`, restricted to ASCII letters: no capital is left, every
   * capital becomes the small letter at the same place in the alphabet, and
   * every other character is kept.
   */
  function ToLower(s: string): (r: string)
    ensures |r| == |s|
    ensures forall k :: 0 <= k < |r| ==> !IsUpper(r[k])
    ensures forall k :: 0 <= k < |s| && IsUpper(s[k]) ==> r[k] as int - 'a' as int == s[k] as int - 'A' as int
    ensures forall k :: 0 <= k < |s| && !IsUpper(s[k]) ==> r[k] == s[k]
  {
    seq(|s|, k requires 0 <= k < |s| => LowerChar(s[k]))
  }

  /** Lower-casing text that is already lower-cased changes nothing. */
  lemma ToLowerIdempotent(s: string)
    ensures ToLower(ToLower(s)) == ToLower(s)
  {
    var lowered := ToLower(s);
    assert forall k :: 0 <= k < |lowered| ==> ToLower(lowered)[k] == lowered[k];
  }

  predicate IsDigit(c: char)
  {
    '0' <= c <= '9'
  }

  /** The decimal digit for `d`. */
  function DigitChar(d: nat): (c: char)
    requires d < 10
    ensures IsDigit(c)
  {
    ('0' as int + d) as char
  }

  /** `Integer.toString` for a non-negative number: its decimal digits, most significant first. */
  function NatToDecimal(n: nat): (r: string)
    ensures |r| >= 1
    ensures forall k :: 0 <= k < |r| ==> IsDigit(r[k])
    ensures r[0] == '0' ==> n == 0
    decreases n
  {
    if n < 10 then [DigitChar(n)] else NatToDecimal(n / 10) + [DigitChar(n % 10)]
  }

  /** `Integer.toString`: a minus sign in front of the digits of a negative number. */
  function IntToDecimal(i: int): string
  {
    if i < 0 then "-" + NatToDecimal(-i) else NatToDecimal(i)
  }

  /** The number a string of decimal digits denotes. */
  function DecimalValue(s: string): nat
    requires forall k :: 0 <= k < |s| ==> IsDigit(s[k])
  {
    if s == [] then 0
    else
      var last := s[|s| - 1];
      assert IsDigit(last);
      10 * DecimalValue(s[..|s| - 1]) + (last as int - '0' as int)
  }

  /** Reading the digits back gives the number that was printed. */
  lemma {:induction false} DecimalRoundTrip(n: nat)
    ensures DecimalValue(NatToDecimal(n)) == n
    decreases n
  {
    if n >= 10 {
      DecimalRoundTrip(n / 10);
      var r := NatToDecimal(n);
      assert r[..|r| - 1] == NatToDecimal(n / 10);
    }
  }
}
