/**
 * The report id of `HistoryManager.save_report` in market_agents/app.py:
 * the topic reduced to a slug that is safe as a directory name, after the
 * timestamp of the save.
 */
module History {
  import opened PyStr

  /** `c.isalnum()`, for ASCII letters and digits. */
  predicate IsAlnum(c: char) {
    ('a' <= c <= 'z') || ('A' <= c <= 'Z') || ('0' <= c <= '9')
  }

  /** The characters the slug comprehension keeps. */
  predicate Kept(c: char) {
    IsAlnum(c) || c == ' ' || c == '-' || c == '_'
  }

  /** The characters a slug is made of: no space, nothing that separates a path. */
  predicate SlugChar(c: char) {
    IsAlnum(c) || c == '-' || c == '_'
  }

  /** `"".join([c for c in topic if c.isalnum() or c in (' ', '-', '_')])`. */
  function Filter(topic: string): (r: string)
    ensures |r| <= |topic|
    ensures forall j :: 0 <= j < |r| ==> Kept(r[j])
    decreases |topic|
  {
    if topic == [] then []
    else if Kept(topic[0]) then [topic[0]] + Filter(topic[1..])
    else Filter(topic[1..])
  }

  /** The comprehension works character by character. */
  lemma {:induction false} FilterAppend(a: string, b: string)
    ensures Filter(a + b) == Filter(a) + Filter(b)
    decreases |a|
  {
    if a == [] {
      assert a + b == b;
    } else {
      assert (a + b)[1..] == a[1..] + b;
      FilterAppend(a[1..], b);
    }
  }

  /** A topic of kept characters only comes through the comprehension whole. */
  lemma {:induction false} FilterKeepsPlain(topic: string)
    requires forall j :: 0 <= j < |topic| ==> Kept(topic[j])
    ensures Filter(topic) == topic
    decreases |topic|
  {
    if topic != [] {
      FilterKeepsPlain(topic[1..]);
    }
  }

  /** Every kept character of the topic reaches the filtered text, and no other. */
  lemma {:induction false} FilterExact(topic: string, c: char)
    ensures c in Filter(topic) <==> c in topic && Kept(c)
    decreases |topic|
  {
    if topic != [] {
      FilterExact(topic[1..], c);
      assert topic == [topic[0]] + topic[1..];
    }
  }

  /**
   * `safe_topic`: the kept characters, stripped, with every space turned
   * into an underscore. It holds no space and only letters, digits, `-`
   * and `_`.
   */
  function SafeTopic(topic: string): (r: string)
    ensures |r| <= |topic|
    ensures forall j :: 0 <= j < |r| ==> SlugChar(r[j])
  {
    var kept := Filter(topic);
    var stripped := Strip(kept);
    StripKeeps(kept, Kept);
    ReplaceCharByChar(stripped, ' ', '_');
    ReplaceAll(stripped, " ", "_")
  }

  /**
   * `r` is the slug of the filtered text `kept`: `kept` is spaces up to `lo`
   * and from `lo + |r|` on, `r` neither starts nor ends where `kept` has a
   * space, and in between each space of `kept` becomes `_` and every other
   * character stays.
   */
  predicate Slugged(kept: string, lo: nat, r: string) {
    && lo + |r| <= |kept|
    && (forall i :: 0 <= i < lo ==> kept[i] == ' ')
    && (forall i :: lo + |r| <= i < |kept| ==> kept[i] == ' ')
    && (r != [] ==> kept[lo] != ' ' && kept[lo + |r| - 1] != ' ')
    && (forall j :: 0 <= j < |r| ==> r[j] == if kept[lo + j] == ' ' then '_' else kept[lo + j])
  }

  /** `safe_topic` character by character: the filtered topic without its outer spaces, every inner space an underscore. */
  lemma {:induction false} SafeTopicChars(topic: string) returns (lo: nat)
    ensures Slugged(Filter(topic), lo, SafeTopic(topic))
  {
    lo := SlugOfKept(Filter(topic));
  }

  /** For text of kept characters, the underscored `strip` is a slug of it. */
  lemma {:induction false} SlugOfKept(kept: string) returns (lo: nat)
    requires forall j :: 0 <= j < |kept| ==> Kept(kept[j])
    ensures Slugged(kept, lo, ReplaceAll(Strip(kept), " ", "_"))
  {
    var stripped := Strip(kept);
    lo := StripSlice(kept);
    KeptSpaces(kept);
    var r := ReplaceAll(stripped, [' '], ['_']);
    ReplaceCharByChar(stripped, ' ', '_');
    SluggedOf(kept, lo, stripped, r);
  }

  /** Filtered text holds no whitespace but the space. */
  lemma {:induction false} KeptSpaces(kept: string)
    requires forall j :: 0 <= j < |kept| ==> Kept(kept[j])
    ensures forall i :: 0 <= i < |kept| && IsSpace(kept[i]) ==> kept[i] == ' '
  {
    forall i | 0 <= i < |kept| && IsSpace(kept[i]) ensures kept[i] == ' ' {
      KeptSpace(kept[i]);
    }
  }

  /** The cut that `strip` makes of filtered text, with its spaces turned into underscores, is a slug of it. */
  lemma {:induction false} SluggedOf(kept: string, lo: nat, stripped: string, r: string)
    requires lo + |stripped| <= |kept|
    requires forall i :: 0 <= i < |kept| && IsSpace(kept[i]) ==> kept[i] == ' '
    requires forall i :: 0 <= i < lo ==> IsSpace(kept[i])
    requires forall i :: lo + |stripped| <= i < |kept| ==> IsSpace(kept[i])
    requires forall j :: 0 <= j < |stripped| ==> stripped[j] == kept[lo + j]
    requires stripped == [] || (!IsSpace(stripped[0]) && !IsSpace(stripped[|stripped| - 1]))
    requires |r| == |stripped|
    requires forall j :: 0 <= j < |stripped| ==> r[j] == (if stripped[j] == ' ' then '_' else stripped[j])
    ensures Slugged(kept, lo, r)
  {
    assert IsSpace(' ');
  }

  /** Among the kept characters only the space is whitespace. */
  lemma {:induction false} KeptSpace(c: char)
    requires Kept(c) && IsSpace(c)
    ensures c == ' '
  {
  }

  /** The characterisation fixes the slug: two slugs of the same filtered text are equal. */
  lemma {:induction false} SluggedUnique(kept: string, lo1: nat, r1: string, lo2: nat, r2: string)
    requires Slugged(kept, lo1, r1) && Slugged(kept, lo2, r2)
    ensures r1 == r2
  {
    if r1 == [] {
      AllSpaces(kept, lo1, r1);
    } else if r2 == [] {
      AllSpaces(kept, lo2, r2);
    } else {
      SameStart(kept, lo1, r1, lo2, r2);
      SameStart(kept, lo2, r2, lo1, r1);
      SameEnd(kept, lo1, r1, lo2, r2);
      SameEnd(kept, lo2, r2, lo1, r1);
      forall j | 0 <= j < |r1| ensures r1[j] == r2[j] {
        assert r1[j] == if kept[lo1 + j] == ' ' then '_' else kept[lo1 + j];
      }
    }
  }

  /** An empty slug comes only from filtered text that is all spaces. */
  lemma {:induction false} AllSpaces(kept: string, lo: nat, r: string)
    requires Slugged(kept, lo, r) && r == []
    ensures forall i :: 0 <= i < |kept| ==> kept[i] == ' '
  {
  }

  lemma {:induction false} SameStart(kept: string, lo1: nat, r1: string, lo2: nat, r2: string)
    requires Slugged(kept, lo1, r1) && Slugged(kept, lo2, r2) && r1 != [] && r2 != []
    ensures lo1 <= lo2
  {
  }

  lemma {:induction false} SameEnd(kept: string, lo1: nat, r1: string, lo2: nat, r2: string)
    requires Slugged(kept, lo1, r1) && Slugged(kept, lo2, r2) && r1 != [] && r2 != []
    ensures lo1 + |r1| <= lo2 + |r2|
  {
  }

  /** Spaces around the topic do not reach the slug. */
  lemma {:induction false} OuterSpacesDropped(t: string)
    ensures SafeTopic(" " + t) == SafeTopic(t)
    ensures SafeTopic(t + " ") == SafeTopic(t)
  {
    FilterAppend(" ", t);
    FilterAppend(t, " ");
    assert Filter(" ") == " ";
    StripLeadingSpace(' ', Filter(t));
    StripTrailingSpace(Filter(t), ' ');
  }

  /** A slug is its own slug. */
  lemma {:induction false} SafeTopicIdempotent(topic: string)
    ensures SafeTopic(SafeTopic(topic)) == SafeTopic(topic)
  {
    SlugUnchanged(SafeTopic(topic));
  }

  /** A topic already made of slug characters is its own slug. */
  lemma {:induction false} SlugUnchanged(topic: string)
    requires forall j :: 0 <= j < |topic| ==> SlugChar(topic[j])
    ensures SafeTopic(topic) == topic
  {
    FilterKeepsPlain(topic);
    assert Strip(topic) == topic;
    ReplaceCharByChar(topic, ' ', '_');
    assert ReplaceAll(topic, " ", "_") == topic;
  }

  /** Spaces inside the topic become underscores, not gaps: words stay apart. */
  lemma {:induction false} SpacesBecomeUnderscores(a: string, b: string)
    requires a != [] && b != []
    requires forall j :: 0 <= j < |a| ==> SlugChar(a[j])
    requires forall j :: 0 <= j < |b| ==> SlugChar(b[j])
    ensures SafeTopic(a + " " + b) == a + "_" + b
  {
    KeptJoin(a, b);
    UnderscoreJoin(a, b);
  }

  lemma {:induction false} KeptJoin(a: string, b: string)
    requires a != [] && b != []
    requires forall j :: 0 <= j < |a| ==> SlugChar(a[j])
    requires forall j :: 0 <= j < |b| ==> SlugChar(b[j])
    ensures Strip(Filter(a + " " + b)) == a + " " + b
  {
    JoinEnds(a, " ", b);
    SlugNotSpace(a[0]);
    SlugNotSpace(b[|b| - 1]);
    FilterJoin(a, b);
  }

  lemma {:induction false} JoinEnds(a: string, x: string, b: string)
    requires a != [] && b != []
    ensures (a + x + b)[0] == a[0] && (a + x + b)[|a + x + b| - 1] == b[|b| - 1]
  {
  }

  lemma {:induction false} SlugNotSpace(c: char)
    requires SlugChar(c)
    ensures !IsSpace(c)
  {
  }

  lemma {:induction false} FilterJoin(a: string, b: string)
    requires forall j :: 0 <= j < |a| ==> SlugChar(a[j])
    requires forall j :: 0 <= j < |b| ==> SlugChar(b[j])
    ensures Filter(a + " " + b) == a + " " + b
  {
    FilterKeepsPlain(a);
    FilterKeepsPlain(b);
    assert Filter(" ") == " ";
    FilterAppend(a + " ", b);
    FilterAppend(a, " ");
  }

  lemma {:induction false} UnderscoreJoin(a: string, b: string)
    requires forall j :: 0 <= j < |a| ==> SlugChar(a[j])
    requires forall j :: 0 <= j < |b| ==> SlugChar(b[j])
    ensures ReplaceAll(a + " " + b, " ", "_") == a + "_" + b
  {
    ReplaceCharAppend(a + " ", b, ' ', "_");
    ReplaceCharAppend(a, " ", ' ', "_");
    ReplaceCharAbsent(a, ' ', "_");
    ReplaceCharAbsent(b, ' ', "_");
    assert ReplaceAll(" ", " ", "_") == "_";
  }

  /** `datetime.now().strftime("%Y%m%d_%H%M%S")`: eight digits, an underscore, six digits. */
  predicate Timestamp(ts: string) {
    && |ts| == 15 && ts[8] == '_'
    && forall j :: 0 <= j < 15 && j != 8 ==> '0' <= ts[j] <= '9'
  }

  /**
   * `report_id`: the timestamp, an underscore and the slug. For a timestamp
   * of the clock's format it is made of slug characters only, so it names
   * one directory directly under the history folder.
   */
  function ReportId(timestamp: string, topic: string): (r: string)
    ensures Timestamp(timestamp) ==> forall j :: 0 <= j < |r| ==> SlugChar(r[j])
  {
    SlugId(timestamp, SafeTopic(topic));
    timestamp + "_" + SafeTopic(topic)
  }

  lemma {:induction false} SlugId(timestamp: string, slug: string)
    requires forall j :: 0 <= j < |slug| ==> SlugChar(slug[j])
    ensures Timestamp(timestamp) ==> forall j :: 0 <= j < |timestamp + "_" + slug| ==> SlugChar((timestamp + "_" + slug)[j])
  {
    if Timestamp(timestamp) {
      ConcatChars(timestamp, "_", SlugChar);
      ConcatChars(timestamp + "_", slug, SlugChar);
    }
  }

  /** The id gives back its timestamp and its slug. */
  lemma {:induction false} ReportIdParts(timestamp: string, topic: string)
    requires Timestamp(timestamp)
    ensures ReportId(timestamp, topic)[..15] == timestamp
    ensures ReportId(timestamp, topic)[15] == '_'
    ensures ReportId(timestamp, topic)[16..] == SafeTopic(topic)
  {
  }

  /** Two saves in the same second share an id exactly when their topics share a slug. */
  lemma {:induction false} ReportIdCollides(timestamp: string, a: string, b: string)
    requires Timestamp(timestamp)
    ensures ReportId(timestamp, a) == ReportId(timestamp, b) <==> SafeTopic(a) == SafeTopic(b)
  {
    if ReportId(timestamp, a) == ReportId(timestamp, b) {
      ReportIdParts(timestamp, a);
      ReportIdParts(timestamp, b);
    }
  }
}
