/**
 * The Python string and list primitives the core relies on, written out with
 * Python's own semantics: `sub in s`, `s.replace(pat, rep)`, `s.strip()`,
 * `s.split(sep)`, `sep.join(parts)`, `s.split(sep, 1)`, `s.lower()` and the
 * ordering `list.sort()` uses on strings (code-point lexicographic order).
 */
module PyStr {
  import opened Optional

  /** The characters `str.isspace()` accepts; `str.strip()` with no argument removes exactly these. */
  predicate IsSpace(c: char) {
    || ('\t' <= c <= '\r')
    || ('\U{1C}' <= c <= ' ')
    || c == '\U{85}' || c == '\U{A0}' || c == '\U{1680}'
    || ('\U{2000}' <= c <= '\U{200A}')
    || c == '\U{2028}' || c == '\U{2029}' || c == '\U{202F}' || c == '\U{205F}' || c == '\U{3000}'
  }

  /** `sub` occurs in `s` starting at index `k`. */
  predicate OccursAt(s: string, sub: string, k: nat) {
    k + |sub| <= |s| && s[k..k + |sub|] == sub
  }

  predicate HasPrefix(s: string, p: string) {
    |p| <= |s| && s[..|p|] == p
  }

  predicate HasSuffix(s: string, p: string) {
    |p| <= |s| && s[|s| - |p|..] == p
  }

  /** `s.find(sub)`: the first index at which `sub` occurs, if any. */
  function IndexOf(s: string, sub: string): (r: Option<nat>)
    ensures r.Some? ==> OccursAt(s, sub, r.value)
    ensures r.Some? ==> forall k: nat :: k < r.value ==> !OccursAt(s, sub, k)
    ensures r.None? ==> forall k: nat :: !OccursAt(s, sub, k)
    decreases |s|
  {
    if |s| < |sub| then None
    else if s[..|sub|] == sub then Some(0)
    else
      assert !OccursAt(s, sub, 0);
      assert forall k: nat :: OccursAt(s, sub, k + 1) <==> OccursAt(s[1..], sub, k) by {
        forall k: nat ensures OccursAt(s, sub, k + 1) <==> OccursAt(s[1..], sub, k) { OccursShift(s, sub, k); }
      }
      match IndexOf(s[1..], sub)
      case None =>
        assert forall k: nat :: !OccursAt(s, sub, k) by {
          forall k: nat ensures !OccursAt(s, sub, k) { if k > 0 { assert !OccursAt(s[1..], sub, k - 1); } }
        }
        None
      case Some(i) =>
        assert forall k: nat :: k < i + 1 ==> !OccursAt(s, sub, k) by {
          forall k: nat | k < i + 1 ensures !OccursAt(s, sub, k) { if k > 0 { assert !OccursAt(s[1..], sub, k - 1); } }
        }
        Some(i + 1)
  }

  lemma {:induction false} OccursShift(s: string, sub: string, k: nat)
    requires s != []
    ensures OccursAt(s, sub, k + 1) <==> OccursAt(s[1..], sub, k)
  {
    if k + 1 + |sub| <= |s| {
      assert s[k + 1..k + 1 + |sub|] == s[1..][k..k + |sub|];
    }
  }

  /** Python's `sub in s`. */
  predicate Contains(s: string, sub: string) {
    IndexOf(s, sub).Some?
  }

  lemma {:induction false} ContainsAt(s: string, sub: string, k: nat)
    requires OccursAt(s, sub, k)
    ensures Contains(s, sub)
  {
  }

  /** An occurrence inside a slice is an occurrence in the whole string. */
  lemma {:induction false} OccursInSlice(s: string, sub: string, i: nat, j: nat, k: nat)
    requires i <= j <= |s| && OccursAt(s[i..j], sub, k)
    ensures OccursAt(s, sub, i + k)
  {
    var whole, part := s[i + k..i + k + |sub|], s[i..j][k..k + |sub|];
    assert forall t :: 0 <= t < |sub| ==> whole[t] == part[t];
  }

  /** An occurrence in the middle piece of a concatenation is an occurrence in the whole. */
  lemma {:induction false} OccursInConcat(a: string, b: string, c: string, x: string, i: nat)
    requires OccursAt(b, x, i)
    ensures OccursAt(a + b + c, x, |a| + i)
  {
    var whole, part := (a + b + c)[|a| + i..|a| + i + |x|], b[i..i + |x|];
    assert forall t :: 0 <= t < |x| ==> whole[t] == part[t];
  }

  /** An occurrence inside an occurrence is an occurrence in the outer string. */
  lemma {:induction false} OccursTrans(s: string, t: string, i: nat, sub: string, k: nat)
    requires OccursAt(s, t, i) && OccursAt(t, sub, k)
    ensures OccursAt(s, sub, i + k)
  {
    OccursInSlice(s, sub, i, i + |t|, k);
  }

  /** A piece of a string that lacks `sub` lacks it too. */
  lemma {:induction false} LacksInPiece(s: string, t: string, i: nat, sub: string)
    requires OccursAt(s, t, i) && !Contains(s, sub)
    ensures !Contains(t, sub)
  {
    forall k: nat | OccursAt(t, sub, k) ensures OccursAt(s, sub, i + k) {
      OccursTrans(s, t, i, sub, k);
    }
  }

  /** The two halves of a concatenation are its prefix and its suffix. */
  lemma {:induction false} ConcatEnds(a: string, b: string)
    ensures HasPrefix(a + b, a) && HasSuffix(a + b, b)
  {
    assert (a + b)[..|a|] == a;
    assert (a + b)[|a|..] == b;
  }

  /** `s.replace(pat, rep)`: every non-overlapping occurrence of `pat`, scanning left to right. */
  function ReplaceAll(s: string, pat: string, rep: string): (r: string)
    requires |pat| > 0
    decreases |s|
  {
    if |s| < |pat| then s
    else if s[..|pat|] == pat then rep + ReplaceAll(s[|pat|..], pat, rep)
    else [s[0]] + ReplaceAll(s[1..], pat, rep)
  }

  /** A string without `pat` comes back from `replace` unchanged. */
  lemma {:induction false} ReplaceAbsent(s: string, pat: string, rep: string)
    requires |pat| > 0 && !Contains(s, pat)
    ensures ReplaceAll(s, pat, rep) == s
    decreases |s|
  {
    if |s| >= |pat| {
      assert !OccursAt(s, pat, 0);
      ReplaceAbsent(s[1..], pat, rep);
    }
  }

  /** Replacing a single character acts on each character independently. */
  lemma {:induction false} ReplaceCharAppend(a: string, b: string, c: char, rep: string)
    ensures ReplaceAll(a + b, [c], rep) == ReplaceAll(a, [c], rep) + ReplaceAll(b, [c], rep)
    decreases |a|
  {
    if a != [] {
      assert (a + b)[1..] == a[1..] + b;
      assert (a + b)[..1] == a[..1];
      ReplaceCharAppend(a[1..], b, c, rep);
    } else {
      assert a + b == b;
    }
  }

  /** Replacing one character by one character maps each character on its own. */
  lemma {:induction false} ReplaceCharByChar(s: string, c: char, d: char)
    ensures |ReplaceAll(s, [c], [d])| == |s|
    ensures forall j :: 0 <= j < |s| ==> ReplaceAll(s, [c], [d])[j] == (if s[j] == c then d else s[j])
    decreases |s|
  {
    if s != [] {
      ReplaceCharByChar(s[1..], c, d);
      assert s[..1] == [c] <==> s[0] == c;
    }
  }

  /** A string without the character comes back from replacing it unchanged. */
  lemma {:induction false} ReplaceCharAbsent(s: string, c: char, d: string)
    requires forall j :: 0 <= j < |s| ==> s[j] != c
    ensures ReplaceAll(s, [c], d) == s
    decreases |s|
  {
    if s != [] {
      assert s[..1] != [c] by { assert s[..1][0] == s[0]; }
      ReplaceCharAbsent(s[1..], c, d);
      assert s == [s[0]] + s[1..];
    }
  }

  /** A property every character of two strings has, every character of their concatenation has. */
  lemma {:induction false} ConcatChars(a: string, b: string, p: char -> bool)
    requires forall j :: 0 <= j < |a| ==> p(a[j])
    requires forall j :: 0 <= j < |b| ==> p(b[j])
    ensures forall j :: 0 <= j < |a + b| ==> p((a + b)[j])
  {
    forall j | 0 <= j < |a + b| ensures p((a + b)[j]) {
      if j >= |a| { assert (a + b)[j] == b[j - |a|]; }
    }
  }

  /** Strips leading whitespace (the first half of `str.strip()`). */
  function LStrip(s: string): (r: string)
    ensures |r| <= |s| && r == s[|s| - |r|..]
    ensures r == [] || !IsSpace(r[0])
    ensures forall i :: 0 <= i < |s| - |r| ==> IsSpace(s[i])
    decreases |s|
  {
    if s != [] && IsSpace(s[0]) then LStrip(s[1..]) else s
  }

  /** Strips trailing whitespace (the second half of `str.strip()`). */
  function RStrip(s: string): (r: string)
    ensures |r| <= |s| && r == s[..|r|]
    ensures r == [] || !IsSpace(r[|r| - 1])
    ensures forall i :: |r| <= i < |s| ==> IsSpace(s[i])
    decreases |s|
  {
    if s != [] && IsSpace(s[|s| - 1]) then RStrip(s[..|s| - 1]) else s
  }

  /**
   * `s.strip()`: the result is the slice of `s` between its leading and
   * trailing whitespace; it is empty exactly when `s` is all whitespace.
   */
  function Strip(s: string): (r: string)
    ensures |r| <= |s| && OccursAt(s, r, |s| - |LStrip(s)|)
    ensures r == [] || (!IsSpace(r[0]) && !IsSpace(r[|r| - 1]))
    ensures r == [] <==> forall i :: 0 <= i < |s| ==> IsSpace(s[i])
    ensures (s == [] || (!IsSpace(s[0]) && !IsSpace(s[|s| - 1]))) ==> r == s
  {
    var l := LStrip(s);
    var r := RStrip(l);
    PeelWithin(s, l, r);
    r
  }

  /** A leading whitespace character makes no difference to `strip`. */
  lemma {:induction false} StripLeadingSpace(c: char, s: string)
    requires IsSpace(c)
    ensures Strip([c] + s) == Strip(s)
  {
    assert ([c] + s)[1..] == s;
  }

  /** Nor does a trailing one. */
  lemma {:induction false} StripTrailingSpace(s: string, c: char)
    requires IsSpace(c)
    ensures Strip(s + [c]) == Strip(s)
    decreases |s|
  {
    if s == [] {
      assert Strip([c]) == [];
    } else if IsSpace(s[0]) {
      assert (s + [c])[1..] == s[1..] + [c];
      StripTrailingSpace(s[1..], c);
    } else {
      assert (s + [c])[..|s|] == s;
    }
  }

  /** `strip` cuts `s` at `lo` and `lo + |Strip(s)|`, and everything cut off is whitespace. */
  lemma {:induction false} StripSlice(s: string) returns (lo: nat)
    ensures lo + |Strip(s)| <= |s|
    ensures forall i :: 0 <= i < lo ==> IsSpace(s[i])
    ensures forall i :: lo + |Strip(s)| <= i < |s| ==> IsSpace(s[i])
    ensures forall j :: 0 <= j < |Strip(s)| ==> Strip(s)[j] == s[lo + j]
  {
    var l := LStrip(s);
    var r := RStrip(l);
    assert Strip(s) == r;
    PeelSlice(s, l, r);
    lo := |s| - |l|;
  }

  /** A prefix `r` of a suffix `l` of `s`, with whitespace cut off on both sides, is the slice of `s` between the cuts. */
  lemma {:induction false} PeelSlice(s: string, l: string, r: string)
    requires |l| <= |s| && l == s[|s| - |l|..] && (forall i :: 0 <= i < |s| - |l| ==> IsSpace(s[i]))
    requires |r| <= |l| && r == l[..|r|] && (forall i :: |r| <= i < |l| ==> IsSpace(l[i]))
    ensures forall i :: |s| - |l| + |r| <= i < |s| ==> IsSpace(s[i])
    ensures forall j :: 0 <= j < |r| ==> r[j] == s[|s| - |l| + j]
  {
    var lo := |s| - |l|;
    forall i | lo + |r| <= i < |s| ensures IsSpace(s[i]) {
      assert s[i] == l[i - lo];
    }
    forall j | 0 <= j < |r| ensures r[j] == s[lo + j] {
      assert r[j] == l[j];
    }
  }

  /** Stripping keeps only characters of the original, so it keeps any property they all have. */
  lemma {:induction false} StripKeeps(s: string, p: char -> bool)
    requires forall j :: 0 <= j < |s| ==> p(s[j])
    ensures forall j :: 0 <= j < |Strip(s)| ==> p(Strip(s)[j])
  {
    var i := StripWithin(s);
    forall j | 0 <= j < |Strip(s)| ensures p(Strip(s)[j]) {
      assert Strip(s)[j] == s[i + j];
    }
  }

  /** Where the stripped string sits in the original. */
  lemma {:induction false} StripWithin(s: string) returns (i: nat)
    ensures OccursAt(s, Strip(s), i)
  {
    i := |s| - |LStrip(s)|;
  }

  /** A prefix of a suffix of `s` occurs in `s` where the suffix starts. */
  lemma {:induction false} PeelWithin(s: string, l: string, r: string)
    requires |l| <= |s| && l == s[|s| - |l|..] && |r| <= |l| && r == l[..|r|]
    ensures OccursAt(s, r, |s| - |l|)
  {
    var i := |s| - |l|;
    assert s[i..i + |r|] == s[i..][..|r|];
  }

  /** `sep.join(parts)`. */
  function Join(parts: seq<string>, sep: string): string
    decreases |parts|
  {
    if parts == [] then ""
    else if |parts| == 1 then parts[0]
    else parts[0] + sep + Join(parts[1..], sep)
  }

  /** `s.split(sep)`: the pieces between the occurrences of `sep`, none of which contains it. */
  function Split(s: string, sep: string): (parts: seq<string>)
    requires |sep| > 0
    ensures |parts| >= 1
    ensures forall i :: 0 <= i < |parts| ==> !Contains(parts[i], sep)
    decreases |s|
  {
    match IndexOf(s, sep)
    case None => [s]
    case Some(i) =>
      var head := s[..i];
      assert !Contains(head, sep) by {
        if Contains(head, sep) {
          var k := IndexOf(head, sep).value;
          OccursInSlice(s, sep, 0, i, k);
        }
      }
      [head] + Split(s[i + |sep|..], sep)
  }

  /** Joining the pieces of a split with the same separator gives back the string. */
  lemma {:induction false} JoinSplit(s: string, sep: string)
    requires |sep| > 0
    ensures Join(Split(s, sep), sep) == s
    decreases |s|
  {
    match IndexOf(s, sep)
    case None =>
    case Some(i) =>
      var rest := s[i + |sep|..];
      assert s == s[..i] + sep + rest by { assert s[i..i + |sep|] == sep; }
      JoinSplit(rest, sep);
      var parts := Split(rest, sep);
      var all := [s[..i]] + parts;
      assert Split(s, sep) == all;
      assert all[1..] == parts;
      assert Join(all, sep) == s[..i] + sep + Join(parts, sep);
  }

  /**
   * `s.replace(pat, rep)` is `rep.join(s.split(pat))`: both cut `s` at the
   * same non-overlapping occurrences of `pat`, left to right. The proof
   * follows the scan of `replace`, one character or one occurrence at a time.
   */
  lemma {:induction false} ReplaceIsJoinSplit(s: string, pat: string, rep: string)
    requires |pat| > 0
    ensures ReplaceAll(s, pat, rep) == Join(Split(s, pat), rep)
    decreases |s|
  {
    if |s| < |pat| {
      assert IndexOf(s, pat).None?;
    } else if s[..|pat|] == pat {
      ReplaceIsJoinSplit(s[|pat|..], pat, rep);
      JoinSplitAt(s, pat, rep);
    } else {
      ReplaceIsJoinSplit(s[1..], pat, rep);
      JoinSplitPast(s, pat, rep);
    }
  }

  /** An occurrence at the front: both sides put `rep` first and go on after it. */
  lemma {:induction false} JoinSplitAt(s: string, pat: string, rep: string)
    requires |pat| > 0 && |s| >= |pat| && s[..|pat|] == pat
    requires ReplaceAll(s[|pat|..], pat, rep) == Join(Split(s[|pat|..], pat), rep)
    ensures ReplaceAll(s, pat, rep) == Join(Split(s, pat), rep)
  {
    var rest := s[|pat|..];
    assert IndexOf(s, pat) == Some(0);
    assert Split(s, pat) == [[]] + Split(rest, pat) by { assert s[..0] == []; }
    JoinCons([], Split(rest, pat), rep);
  }

  /** No occurrence at the front: both sides keep the first character and go on after it. */
  lemma {:induction false} JoinSplitPast(s: string, pat: string, rep: string)
    requires |pat| > 0 && |s| >= |pat| && s[..|pat|] != pat
    requires ReplaceAll(s[1..], pat, rep) == Join(Split(s[1..], pat), rep)
    ensures ReplaceAll(s, pat, rep) == Join(Split(s, pat), rep)
  {
    var t := s[1..];
    assert ReplaceAll(s, pat, rep) == [s[0]] + ReplaceAll(t, pat, rep);
    match IndexOf(t, pat)
    case None =>
      assert IndexOf(s, pat).None?;
      assert [s[0]] + t == s;
    case Some(i) =>
      assert IndexOf(s, pat) == Some(i + 1);
      SplitPast(s, pat, rep, i);
  }

  /** The first occurrence at `i + 1`: the split of `s` is that of `s[1..]` with `s[0]` before its head. */
  lemma {:induction false} SplitPast(s: string, pat: string, rep: string, i: nat)
    requires |pat| > 0 && |s| >= |pat| && IndexOf(s, pat) == Some(i + 1) && IndexOf(s[1..], pat) == Some(i)
    ensures Join(Split(s, pat), rep) == [s[0]] + Join(Split(s[1..], pat), rep)
  {
    var t := s[1..];
    var rest := t[i + |pat|..];
    assert rest == s[i + 1 + |pat|..];
    SplitAt(t, pat, i);
    SplitAt(s, pat, i + 1);
    assert [s[0]] + t[..i] == s[..i + 1];
    JoinPrepend(s[0], t[..i], s[..i + 1], Split(rest, pat), rep, Split(s, pat), Split(t, pat));
  }

  /** A split at a known first occurrence. */
  lemma {:induction false} SplitAt(s: string, sep: string, i: nat)
    requires |sep| > 0 && IndexOf(s, sep) == Some(i)
    ensures i + |sep| <= |s|
    ensures Split(s, sep) == [s[..i]] + Split(s[i + |sep|..], sep)
  {
    assert OccursAt(s, sep, i);
  }

  /** A character put before the head of a list to join ends up before the joined string. */
  lemma {:induction false} JoinPrepend(c: char, a: string, b: string, parts: seq<string>, sep: string,
                                       withB: seq<string>, withA: seq<string>)
    requires parts != [] && b == [c] + a
    requires withB == [b] + parts && withA == [a] + parts
    ensures Join(withB, sep) == [c] + Join(withA, sep)
  {
    JoinCons(a, parts, sep);
    JoinCons(b, parts, sep);
  }

  /** Joining a head before a non-empty list puts one separator after the head. */
  lemma {:induction false} JoinCons(head: string, parts: seq<string>, sep: string)
    requires parts != []
    ensures Join([head] + parts, sep) == head + sep + Join(parts, sep)
  {
    assert ([head] + parts)[1..] == parts;
  }

  /** Replacing `pat` by itself gives the string back. */
  lemma {:induction false} ReplaceBySelf(s: string, pat: string)
    requires |pat| > 0
    ensures ReplaceAll(s, pat, pat) == s
  {
    ReplaceIsJoinSplit(s, pat, pat);
    JoinSplit(s, pat);
  }

  /** A string missing one of the characters of `sub` does not contain `sub`. */
  lemma {:induction false} LacksChar(s: string, sub: string, j: nat)
    requires j < |sub| && forall i :: 0 <= i < |s| ==> s[i] != sub[j]
    ensures !Contains(s, sub)
  {
    forall k: nat | k + |sub| <= |s| ensures !OccursAt(s, sub, k) {
      assert s[k..k + |sub|][j] == s[k + j];
    }
  }

  /** The first piece of a split is the prefix of `s` before the first separator. */
  lemma {:induction false} SplitHead(s: string, sep: string)
    requires |sep| > 0
    ensures IndexOf(s, sep).None? ==> Split(s, sep) == [s]
    ensures IndexOf(s, sep).Some? ==> |Split(s, sep)| >= 2 && Split(s, sep)[0] == s[..IndexOf(s, sep).value]
  {
  }

  /** Past the first separator, the second piece of a split is the first piece of the split of the rest. */
  lemma {:induction false} SplitSecond(s: string, sep: string)
    requires |sep| > 0 && Contains(s, sep)
    ensures |Split(s, sep)| >= 2
    ensures Split(s, sep)[1] == Split(s[IndexOf(s, sep).value + |sep|..], sep)[0]
  {
    SplitUnfold(s, sep);
  }

  /** A split with a separator in the string: the head, then the split of what follows the separator. */
  lemma {:induction false} SplitUnfold(s: string, sep: string)
    requires |sep| > 0 && Contains(s, sep)
    ensures Split(s, sep) == [s[..IndexOf(s, sep).value]] + Split(s[IndexOf(s, sep).value + |sep|..], sep)
  {
  }

  /** The first piece of a split opens the string and runs to its end or to the first separator. */
  lemma {:induction false} SplitFirstEnd(s: string, sep: string)
    requires |sep| > 0
    ensures OccursAt(s, Split(s, sep)[0], 0)
    ensures |Split(s, sep)[0]| == |s| || OccursAt(s, sep, |Split(s, sep)[0]|)
  {
    SplitHead(s, sep);
  }

  /**
   * `f` is the first piece of `t` up to `sep`: it opens `t`, no `sep` begins
   * inside it, and it ends where `t` does or where a `sep` begins.
   */
  predicate FirstPiece(t: string, f: string, sep: string) {
    && OccursAt(t, f, 0)
    && (|f| == |t| || OccursAt(t, sep, |f|))
    && forall k: nat :: k < |f| ==> !OccursAt(t, sep, k)
  }

  /** The first piece of `split` is that first piece. */
  lemma {:induction false} SplitFirstPiece(t: string, sep: string)
    requires |sep| > 0
    ensures FirstPiece(t, Split(t, sep)[0], sep)
  {
    SplitHead(t, sep);
    SplitFirstEnd(t, sep);
  }

  /** An occurrence in the text from `start` on is one in `s`, `start` further on. */
  lemma {:induction false} SuffixOccurs(s: string, start: nat, x: string, k: nat)
    requires start <= |s|
    ensures OccursAt(s[start..], x, k) <==> OccursAt(s, x, start + k)
  {
    if k + |x| <= |s| - start {
      assert s[start..][k..k + |x|] == s[start + k..start + k + |x|];
    }
  }

  /** Within an opening piece `p` of `t`, `t` and `p` have the same occurrences. */
  lemma {:induction false} PrefixOccurs(t: string, p: string, x: string, k: nat)
    requires OccursAt(t, p, 0) && k + |x| <= |p|
    ensures OccursAt(t, x, k) <==> OccursAt(p, x, k)
  {
    assert t[0..|p|] == p;
    forall j | k <= j < k + |x| ensures t[j] == p[j] {
      assert p[j] == t[0..|p|][j];
    }
    assert t[k..k + |x|] == p[k..k + |x|];
  }

  /** Every piece of a join occurs in the joined string. */
  lemma {:induction false} JoinContainsParts(parts: seq<string>, sep: string, j: nat)
    requires j < |parts|
    ensures exists k: nat :: OccursAt(Join(parts, sep), parts[j], k)
    decreases |parts|
  {
    var joined := Join(parts, sep);
    if |parts| == 1 {
      assert OccursAt(joined, parts[j], 0);
    } else if j == 0 {
      assert joined[..|parts[0]|] == parts[0];
      assert OccursAt(joined, parts[j], 0);
    } else {
      JoinContainsParts(parts[1..], sep, j - 1);
      var k: nat :| OccursAt(Join(parts[1..], sep), parts[1..][j - 1], k);
      var off := |parts[0]| + |sep|;
      assert joined == (parts[0] + sep) + Join(parts[1..], sep);
      assert joined[off + k..off + k + |parts[j]|] == Join(parts[1..], sep)[k..k + |parts[j]|];
      assert OccursAt(joined, parts[j], off + k);
    }
  }

  /** Every piece of a join occurs in any text that embeds the join. */
  lemma {:induction false} JoinEmbedded(head: string, parts: seq<string>, sep: string, tail: string, j: nat)
    requires j < |parts|
    ensures exists k: nat :: OccursAt(head + Join(parts, sep) + tail, parts[j], k)
  {
    JoinContainsParts(parts, sep, j);
    var k: nat :| OccursAt(Join(parts, sep), parts[j], k);
    OccursInConcat(head, Join(parts, sep), tail, parts[j], k);
  }

  /** `s.split(sep, 1)`: at most two pieces, cut at the first separator. */
  function SplitOnce(s: string, sep: string): (parts: seq<string>)
    requires |sep| > 0
    ensures 1 <= |parts| <= 2
    ensures Join(parts, sep) == s
    ensures !Contains(parts[0], sep)
    ensures |parts| == 2 <==> Contains(s, sep)
  {
    match IndexOf(s, sep)
    case None => [s]
    case Some(i) =>
      assert s == s[..i] + sep + s[i + |sep|..] by { assert s[i..i + |sep|] == sep; }
      assert !Contains(s[..i], sep) by {
        if Contains(s[..i], sep) {
          OccursInSlice(s, sep, 0, i, IndexOf(s[..i], sep).value);
        }
      }
      [s[..i], s[i + |sep|..]]
  }

  /** Where the pieces of `s.split(sep, 1)` sit in `s`. */
  lemma {:induction false} SplitOnceParts(s: string, sep: string)
    requires |sep| > 0
    ensures OccursAt(s, SplitOnce(s, sep)[0], 0)
    ensures |SplitOnce(s, sep)| == 2 ==> OccursAt(s, sep, |SplitOnce(s, sep)[0]|)
    ensures |SplitOnce(s, sep)| == 2 ==> OccursAt(s, SplitOnce(s, sep)[1], |SplitOnce(s, sep)[0]| + |sep|)
  {
    var parts := SplitOnce(s, sep);
    if |parts| == 2 {
      assert Join(parts[1..], sep) == parts[1];
      assert s == parts[0] + sep + parts[1];
      assert s[..|parts[0]|] == parts[0];
      assert s[|parts[0]|..|parts[0]| + |sep|] == sep;
      assert s[|parts[0]| + |sep|..] == parts[1];
    }
  }

  /** The piece before the first separator of an occurrence of `t` in `s` sits in `s` too. */
  lemma {:induction false} SplitOnceHeadWithin(s: string, t: string, i: nat, sep: string) returns (m: nat)
    requires |sep| > 0 && OccursAt(s, t, i)
    ensures OccursAt(s, SplitOnce(t, sep)[0], m)
  {
    SplitOnceParts(t, sep);
    OccursTrans(s, t, i, SplitOnce(t, sep)[0], 0);
    m := i;
  }

  /** The stripped piece before the first separator of an occurrence of `t` in `s` sits in `s` too. */
  lemma {:induction false} StripHeadWithin(s: string, t: string, i: nat, sep: string) returns (k: nat)
    requires |sep| > 0 && OccursAt(s, t, i)
    ensures OccursAt(s, Strip(SplitOnce(t, sep)[0]), k)
  {
    var line := SplitOnce(t, sep)[0];
    var j := SplitOnceHeadWithin(s, t, i, sep);
    k := StripOfPiece(s, line, j);
  }

  /** The stripped form of a piece of `s` is a piece of `s` too. */
  lemma {:induction false} StripOfPiece(s: string, line: string, j: nat) returns (k: nat)
    requires OccursAt(s, line, j)
    ensures OccursAt(s, Strip(line), k)
  {
    var q := StripWithin(line);
    OccursTrans(s, line, j, Strip(line), q);
    k := j + q;
  }

  /** A piece after the first separator of an occurrence of `t` in `s` sits in `s` too. */
  lemma {:induction false} SplitOnceRestWithin(s: string, t: string, i: nat, sep: string) returns (m: nat)
    requires |sep| > 0 && OccursAt(s, t, i) && |SplitOnce(t, sep)| == 2
    ensures OccursAt(s, SplitOnce(t, sep)[1], m)
  {
    var parts := SplitOnce(t, sep);
    SplitOnceParts(t, sep);
    var q := |parts[0]| + |sep|;
    assert OccursAt(t, parts[1], q);
    OccursTrans(s, t, i, parts[1], q);
    m := i + q;
  }

  /** `xs.index(x)`: the first position of `x`; Python raises `ValueError` when it is absent. */
  function ListIndex(xs: seq<string>, x: string): (r: Option<nat>)
    ensures r.None? <==> x !in xs
    ensures r.Some? ==> r.value < |xs| && xs[r.value] == x && forall j :: 0 <= j < r.value ==> xs[j] != x
    decreases |xs|
  {
    if xs == [] then None
    else if xs[0] == x then Some(0)
    else match ListIndex(xs[1..], x)
      case None => None
      case Some(i) => Some(i + 1)
  }

  /** Appending to a list moves no earlier first position, and places a new item last. */
  lemma {:induction false} ListIndexAppend(xs: seq<string>, x: string, y: string)
    ensures y in xs ==> ListIndex(xs + [x], y) == ListIndex(xs, y)
    ensures y !in xs && y == x ==> ListIndex(xs + [x], y) == Some(|xs|)
    decreases |xs|
  {
    if xs != [] {
      assert (xs + [x])[1..] == xs[1..] + [x];
      ListIndexAppend(xs[1..], x, y);
    }
  }

  /** `c.lower()` for ASCII letters; every other character is kept. */
  function LowerChar(c: char): char {
    if 'A' <= c <= 'Z' then (c as int + 32) as char else c
  }

  /** `s.lower()`, over ASCII letters. */
  function Lower(s: string): (r: string)
    ensures |r| == |s|
    ensures forall i :: 0 <= i < |s| ==> r[i] == LowerChar(s[i])
  {
    seq(|s|, i requires 0 <= i < |s| => LowerChar(s[i]))
  }

  /** Python's `a <= b` on strings: lexicographic by code point, a prefix before its extensions. */
  predicate StrLe(a: string, b: string)
    decreases |a|
  {
    a == [] || (b != [] && (a[0] < b[0] || (a[0] == b[0] && StrLe(a[1..], b[1..]))))
  }

  lemma {:induction false} StrLeTotal(a: string, b: string)
    ensures StrLe(a, b) || StrLe(b, a)
    decreases |a|
  {
    if a != [] && b != [] && a[0] == b[0] {
      StrLeTotal(a[1..], b[1..]);
    }
  }

  lemma {:induction false} StrLeTransitive(a: string, b: string, c: string)
    requires StrLe(a, b) && StrLe(b, c)
    ensures StrLe(a, c)
    decreases |a|
  {
    if a != [] && a[0] == b[0] && b[0] == c[0] {
      StrLeTransitive(a[1..], b[1..], c[1..]);
    }
  }

  lemma {:induction false} StrLeAntisymmetric(a: string, b: string)
    requires StrLe(a, b) && StrLe(b, a)
    ensures a == b
    decreases |a|
  {
    if a != [] {
      StrLeAntisymmetric(a[1..], b[1..]);
      assert a == [a[0]] + a[1..] && b == [b[0]] + b[1..];
    }
  }

  predicate Sorted(s: seq<string>) {
    forall i, j :: 0 <= i < j < |s| ==> StrLe(s[i], s[j])
  }

  lemma {:induction false} SortedCons(h: string, t: seq<string>)
    requires Sorted(t) && forall j :: 0 <= j < |t| ==> StrLe(h, t[j])
    ensures Sorted([h] + t)
  {
    var r := [h] + t;
    forall i, j | 0 <= i < j < |r| ensures StrLe(r[i], r[j]) {
      assert r[j] == t[j - 1];
      if i > 0 { assert r[i] == t[i - 1]; }
    }
  }

  lemma {:induction false} InsertFront(x: string, s: seq<string>)
    requires Sorted(s) && s != [] && StrLe(x, s[0])
    ensures Sorted([x] + s)
  {
    forall j | 0 <= j < |s| ensures StrLe(x, s[j]) {
      if j > 0 { StrLeTransitive(x, s[0], s[j]); }
    }
    SortedCons(x, s);
  }

  lemma {:induction false} InsertBehind(x: string, s: seq<string>, tail: seq<string>)
    requires Sorted(s) && s != [] && !StrLe(x, s[0])
    requires Sorted(tail) && multiset(tail) == multiset(s[1..]) + multiset{x}
    ensures Sorted([s[0]] + tail)
    ensures multiset([s[0]] + tail) == multiset(s) + multiset{x}
  {
    assert s == [s[0]] + s[1..];
    StrLeTotal(x, s[0]);
    forall j | 0 <= j < |tail| ensures StrLe(s[0], tail[j]) {
      var y := tail[j];
      assert y in multiset(tail);
      if y != x {
        assert y in multiset(s[1..]);
        var i :| 0 <= i < |s[1..]| && s[1..][i] == y;
        assert s[i + 1] == y;
      }
    }
    SortedCons(s[0], tail);
  }

  function Insert(x: string, s: seq<string>): (r: seq<string>)
    requires Sorted(s)
    ensures Sorted(r)
    ensures multiset(r) == multiset(s) + multiset{x}
    decreases |s|
  {
    if s == [] then [x]
    else if StrLe(x, s[0]) then
      InsertFront(x, s);
      assert s == [s[0]] + s[1..];
      [x] + s
    else
      var tail := Insert(x, s[1..]);
      InsertBehind(x, s, tail);
      [s[0]] + tail
  }

  function Sort(s: seq<string>): (r: seq<string>)
    ensures Sorted(r)
    ensures multiset(r) == multiset(s)
    decreases |s|
  {
    if s == [] then []
    else
      assert s == [s[0]] + s[1..];
      Insert(s[0], Sort(s[1..]))
  }
}
