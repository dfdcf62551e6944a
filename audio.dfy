/**
 * The text `generate_audio_summary` hands to speech synthesis: the
 * "Executive Summary" section of a report when it has one, otherwise the
 * report's first thousand characters.
 */
module Audio {
  import opened Optional
  import opened PyStr

  /** The heading that opens the executive summary. */
  const Marker := "## Executive Summary"

  /** Where a section ends: the next heading mark. */
  const HeadingMark := "##"

  /** How many characters of the report stand in for a missing summary. */
  const FallbackLength := 1000

  /**
   * No text for an empty report; the stripped text between the first summary
   * heading and the next "##" when the heading occurs (the section of
   * `IsSection`, unique by `SectionUnique`); otherwise a prefix of the report
   * of at most a thousand characters, all of it when it is short.
   */
  function Summary(report: string): (r: Option<string>)
    ensures r.None? <==> report == ""
    ensures r.Some? && Contains(report, Marker) ==>
      exists sec :: IsSection(report, SectionStart(report, Marker), sec, Marker, HeadingMark) && r.value == Strip(sec)
    ensures r.Some? && !Contains(report, Marker) ==>
      && |r.value| <= FallbackLength
      && HasPrefix(report, r.value)
      && (|report| <= FallbackLength ==> r.value == report)
      && (|report| > FallbackLength ==> |r.value| == FallbackLength)
  {
    if report == "" then None
    else if Contains(report, Marker) then
      SectionShape(report, Marker, HeadingMark);
      Some(Strip(Section(report, Marker, HeadingMark)))
    else if |report| <= FallbackLength then Some(report)
    else Some(report[..FallbackLength])
  }

  /** `s.split(heading)[1].split(stop)[0]`: the piece after the first `heading`, up to the next `stop`. */
  function Section(s: string, heading: string, stop: string): string
    requires |heading| > 0 && |stop| > 0 && Contains(s, heading)
  {
    var second := Second(s, heading);
    Split(second, stop)[0]
  }

  /** `s.split(heading)[1]`, which exists once `heading` occurs. */
  function Second(s: string, heading: string): (second: string)
    requires |heading| > 0 && Contains(s, heading)
    ensures second == Split(s[SectionStart(s, heading)..], heading)[0]
  {
    SplitSecond(s, heading);
    Split(s, heading)[1]
  }

  /** Where the text after the first `heading` starts. */
  function SectionStart(s: string, heading: string): (start: nat)
    requires Contains(s, heading)
    ensures |heading| <= start <= |s| && OccursAt(s, heading, start - |heading|)
    ensures forall k: nat :: k < start - |heading| ==> !OccursAt(s, heading, k)
  {
    IndexOf(s, heading).value + |heading|
  }

  /**
   * The section starts right after the first `heading`, holds neither `stop`
   * nor `heading`, and ends where the text ends or where the next `stop` or
   * `heading` begins.
   */
  lemma {:induction false} SectionShape(s: string, heading: string, stop: string)
    requires |heading| > 0 && |stop| > 0 && Contains(s, heading)
    ensures OccursAt(s, Section(s, heading, stop), SectionStart(s, heading))
    ensures !Contains(Section(s, heading, stop), stop) && !Contains(Section(s, heading, stop), heading)
    ensures SectionEnds(s, SectionStart(s, heading) + |Section(s, heading, stop)|, heading, stop)
    ensures IsSection(s, SectionStart(s, heading), Section(s, heading, stop), heading, stop)
  {
    SectionLacks(s, heading, stop);
    SectionPlace(s, heading, stop);
    var start := SectionStart(s, heading);
    var p := Split(s[start..], heading)[0];
    var sec := Split(p, stop)[0];
    SectionUnfold(s, heading, stop);
    SplitFirstPiece(s[start..], heading);
    SplitFirstPiece(p, stop);
    NestedCut(s, start, p, sec, heading, stop);
  }

  /**
   * Position `e` of `s` is where the text after the heading is cut: the text
   * ends there, the next `heading` begins there, or a `stop` begins there
   * that lies wholly before the next `heading`. A `stop` that runs into the
   * next heading does not cut, since `split(heading)` has already ended the
   * piece before it.
   */
  predicate CutAt(s: string, e: nat, heading: string, stop: string) {
    || e == |s|
    || OccursAt(s, heading, e)
    || (OccursAt(s, stop, e) && forall h: nat :: e < h < e + |stop| ==> !OccursAt(s, heading, h))
  }

  /** `sec` stands in `s` at `start` and runs to the first cut at or after `start`. */
  predicate IsSection(s: string, start: nat, sec: string, heading: string, stop: string) {
    && OccursAt(s, sec, start)
    && CutAt(s, start + |sec|, heading, stop)
    && forall e: nat :: start <= e < start + |sec| ==> !CutAt(s, e, heading, stop)
  }

  /** The first piece, up to `stop`, of the first piece, up to `heading`, of the text from `start` on runs to the first cut. */
  lemma {:induction false} NestedCut(s: string, start: nat, p: string, sec: string, heading: string, stop: string)
    requires start <= |s| && |stop| > 0
    requires FirstPiece(s[start..], p, heading) && FirstPiece(p, sec, stop)
    ensures IsSection(s, start, sec, heading, stop)
  {
    var rest := s[start..];
    assert OccursAt(s, rest, start);
    OccursTrans(s, rest, start, p, 0);
    OccursTrans(s, p, start, sec, 0);
    NestedEnd(s, start, p, sec, heading, stop);
    forall e: nat | start <= e < start + |sec| ensures !CutAt(s, e, heading, stop) {
      NestedInside(s, start, p, sec, heading, stop, e);
    }
  }

  /** The end of such a piece is a cut. */
  lemma {:induction false} NestedEnd(s: string, start: nat, p: string, sec: string, heading: string, stop: string)
    requires start <= |s| && |stop| > 0
    requires FirstPiece(s[start..], p, heading) && FirstPiece(p, sec, stop)
    ensures CutAt(s, start + |sec|, heading, stop)
  {
    var rest := s[start..];
    var e := start + |sec|;
    if |sec| < |p| {
      PrefixOccurs(rest, p, stop, |sec|);
      SuffixOccurs(s, start, stop, |sec|);
      forall h: nat | e < h < e + |stop| ensures !OccursAt(s, heading, h) {
        SuffixOccurs(s, start, heading, h - start);
      }
    } else if |p| < |rest| {
      SuffixOccurs(s, start, heading, |p|);
    }
  }

  /** No position inside such a piece is a cut. */
  lemma {:induction false} NestedInside(s: string, start: nat, p: string, sec: string, heading: string, stop: string, e: nat)
    requires start <= |s| && |stop| > 0
    requires FirstPiece(s[start..], p, heading) && FirstPiece(p, sec, stop)
    requires start <= e < start + |sec|
    ensures !CutAt(s, e, heading, stop)
  {
    var rest := s[start..];
    var k := e - start;
    SuffixOccurs(s, start, heading, k);
    SuffixOccurs(s, start, stop, k);
    if OccursAt(s, stop, e) {
      if k + |stop| <= |p| {
        PrefixOccurs(rest, p, stop, k);
      }
      SuffixOccurs(s, start, heading, |p|);
      assert OccursAt(s, heading, start + |p|);
    }
  }

  /** A section ends no later than any cut at or after its start. */
  lemma {:induction false} FirstCut(s: string, start: nat, sec: string, heading: string, stop: string, e: nat)
    requires IsSection(s, start, sec, heading, stop) && start <= e && CutAt(s, e, heading, stop)
    ensures start + |sec| <= e
  {
  }

  /** Only one piece of `s` is the section from `start`. */
  lemma {:induction false} SectionUnique(s: string, start: nat, a: string, b: string, heading: string, stop: string)
    requires IsSection(s, start, a, heading, stop) && IsSection(s, start, b, heading, stop)
    ensures a == b
  {
    FirstCut(s, start, a, heading, stop, start + |b|);
    FirstCut(s, start, b, heading, stop, start + |a|);
    assert a == s[start..start + |a|];
  }

  /** `Section` is the first piece, up to `stop`, of the first piece, up to `heading`, of the text after the heading. */
  lemma {:induction false} SectionUnfold(s: string, heading: string, stop: string)
    requires |heading| > 0 && |stop| > 0 && Contains(s, heading)
    ensures Section(s, heading, stop) == Split(Split(s[SectionStart(s, heading)..], heading)[0], stop)[0]
  {
  }

  lemma {:induction false} SectionLacks(s: string, heading: string, stop: string)
    requires |heading| > 0 && |stop| > 0 && Contains(s, heading)
    ensures !Contains(Section(s, heading, stop), stop) && !Contains(Section(s, heading, stop), heading)
  {
    SectionUnfold(s, heading, stop);
    var p := Split(s[SectionStart(s, heading)..], heading)[0];
    var sec := Split(p, stop)[0];
    assert !Contains(sec, stop);
    assert !Contains(p, heading);
    SplitFirstEnd(p, stop);
    LacksInPiece(p, sec, 0, heading);
  }

  lemma {:induction false} SectionPlace(s: string, heading: string, stop: string)
    requires |heading| > 0 && |stop| > 0 && Contains(s, heading)
    ensures Placed(s, SectionStart(s, heading), Section(s, heading, stop), heading, stop)
  {
    var p, sec := SectionPieces(s, heading, stop);
    PieceChain(s, SectionStart(s, heading), p, sec, heading, stop);
  }

  /** The two pieces `Section` takes: `p` up to the next `heading`, then `sec` up to the next `stop`. */
  lemma {:induction false} SectionPieces(s: string, heading: string, stop: string) returns (p: string, sec: string)
    requires |heading| > 0 && |stop| > 0 && Contains(s, heading)
    ensures sec == Section(s, heading, stop) && Nested(s, SectionStart(s, heading), p, sec, heading, stop)
  {
    SectionUnfold(s, heading, stop);
    var start := SectionStart(s, heading);
    p := Split(s[start..], heading)[0];
    sec := Split(p, stop)[0];
    SplitFirstEnd(s[start..], heading);
    SplitFirstEnd(p, stop);
  }

  /** Position `e` of `s` closes a section: the text ends there, or a `stop` or a `heading` begins there. */
  predicate SectionEnds(s: string, e: nat, heading: string, stop: string) {
    e == |s| || OccursAt(s, stop, e) || OccursAt(s, heading, e)
  }

  /** `sec` stands in `s` at `start` and ends where `s`, a `stop` or a `heading` does. */
  predicate Placed(s: string, start: nat, sec: string, heading: string, stop: string) {
    OccursAt(s, sec, start) && SectionEnds(s, start + |sec|, heading, stop)
  }

  /**
   * `p` opens the text from `start` on and runs to its end or to a `heading`;
   * `sec` opens `p` and runs to its end or to a `stop`.
   */
  predicate Nested(s: string, start: nat, p: string, sec: string, heading: string, stop: string) {
    && start <= |s|
    && OccursAt(s[start..], p, 0) && (|p| == |s| - start || OccursAt(s[start..], heading, |p|))
    && OccursAt(p, sec, 0) && (|sec| == |p| || OccursAt(p, stop, |sec|))
  }

  /** A first piece (up to `stop`) of a first piece (up to `heading`) of the text from `start` on. */
  lemma {:induction false} PieceChain(s: string, start: nat, p: string, sec: string, heading: string, stop: string)
    requires Nested(s, start, p, sec, heading, stop)
    ensures Placed(s, start, sec, heading, stop)
  {
    var rest := s[start..];
    assert OccursAt(s, rest, start);
    OccursTrans(rest, p, 0, sec, 0);
    OccursTrans(s, rest, start, sec, 0);
    if |sec| < |p| {
      OccursTrans(rest, p, 0, stop, |sec|);
      OccursTrans(s, rest, start, stop, |sec|);
    } else if |p| < |rest| {
      OccursTrans(s, rest, start, heading, |p|);
    }
  }

  /**
   * With a summary heading, the summary is a piece of the report after the
   * heading that holds no "##" and has no surrounding whitespace; the section
   * it is stripped from is described by `SectionShape`.
   */
  lemma {:induction false} SummaryWithin(report: string) returns (k: nat)
    requires Contains(report, Marker)
    ensures Excerpt(report, Summary(report).value, SectionStart(report, Marker), k, HeadingMark)
  {
    SummaryOfSection(report);
    k := StrippedSection(report, Marker, HeadingMark);
  }

  /**
   * With the summary heading, the summary is the stripped section of the
   * report: for any text shown to run from just after the first heading to
   * the first cut, the summary is that text, stripped.
   */
  lemma {:induction false} SummaryIsSection(report: string, sec: string)
    requires Contains(report, Marker)
    requires IsSection(report, SectionStart(report, Marker), sec, Marker, HeadingMark)
    ensures Summary(report) == Some(Strip(sec))
  {
    var start := SectionStart(report, Marker);
    SummaryOfSection(report);
    SectionShape(report, Marker, HeadingMark);
    SectionUnique(report, start, sec, Section(report, Marker, HeadingMark), Marker, HeadingMark);
  }

  /**
   * A "##" that opens a run of `#` right after the section ends it: the
   * summary of "## Executive Summary" + body + "###", for a body without `#`,
   * is the stripped body, not the body with a `#` after it.
   */
  lemma {:induction false} SummaryBeforeHashes(report: string, body: string)
    requires report == Marker + body + "###"
    requires forall i :: 0 <= i < |body| ==> body[i] != '#'
    ensures Summary(report) == Some(Strip(body))
  {
    SectionBeforeHashes(report, body);
    SummaryIsSection(report, body);
  }

  lemma {:induction false} SectionBeforeHashes(report: string, body: string)
    requires report == Marker + body + "###"
    requires forall i :: 0 <= i < |body| ==> body[i] != '#'
    ensures Contains(report, Marker) && SectionStart(report, Marker) == |Marker|
    ensures IsSection(report, |Marker|, body, Marker, HeadingMark)
  {
    var m := |Marker|;
    assert report[..m] == Marker;
    assert OccursAt(report, Marker, 0);
    assert report[m..m + |body|] == body;
    assert report[m + |body|..m + |body| + 2] == HeadingMark;
    forall e: nat | m <= e < m + |body| ensures !CutAt(report, e, Marker, HeadingMark) {
      assert report[e] == body[e - m];
      NotAt(report, Marker, e);
      NotAt(report, HeadingMark, e);
    }
  }

  /** `x` does not occur where `s` holds a character other than the first of `x`. */
  lemma {:induction false} NotAt(s: string, x: string, e: nat)
    requires 0 < |x| && e < |s| && s[e] != x[0]
    ensures !OccursAt(s, x, e)
  {
    if e + |x| <= |s| {
      assert s[e..e + |x|][0] == s[e];
    }
  }

  /** `t` sits in `s` at `k`, no earlier than `start`, holds no `stop`, and has no surrounding whitespace. */
  predicate Excerpt(s: string, t: string, start: nat, k: nat, stop: string) {
    && start <= k && OccursAt(s, t, k)
    && !Contains(t, stop)
    && (t == [] || (!IsSpace(t[0]) && !IsSpace(t[|t| - 1])))
  }

  lemma {:induction false} SummaryOfSection(report: string)
    requires Contains(report, Marker)
    ensures Summary(report) == Some(Strip(Section(report, Marker, HeadingMark)))
  {
  }

  /** The stripped section is a piece of `s` after the heading, without `stop`. */
  lemma {:induction false} StrippedSection(s: string, heading: string, stop: string) returns (k: nat)
    requires |heading| > 0 && |stop| > 0 && Contains(s, heading)
    ensures Excerpt(s, Strip(Section(s, heading, stop)), SectionStart(s, heading), k, stop)
  {
    SectionLacks(s, heading, stop);
    SectionPlace(s, heading, stop);
    k := StrippedPiece(s, Section(s, heading, stop), SectionStart(s, heading), stop);
  }

  /** Stripping a piece of `s` that lacks `stop` leaves a piece of `s`, no earlier, that lacks it too. */
  lemma {:induction false} StrippedPiece(s: string, piece: string, i: nat, stop: string) returns (k: nat)
    requires OccursAt(s, piece, i) && !Contains(piece, stop)
    ensures i <= k && OccursAt(s, Strip(piece), k) && !Contains(Strip(piece), stop)
  {
    var q := StripWithin(piece);
    OccursTrans(s, piece, i, Strip(piece), q);
    LacksInPiece(piece, Strip(piece), q, stop);
    k := i + q;
  }
}
