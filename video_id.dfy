/** Video-ID extraction: `extractVideoId` (server and client, JavaScript regular expressions)
    and `extract_video_id` (both Python backends, Python `re`).

    The three URL patterns are modelled as scanners with the matcher's own semantics:
    the leftmost start position wins, alternatives are tried in order, `[^&\n?#]+` is a
    greedy non-empty capture, and the greedy `.*` of the third pattern settles on the
    LAST `v=` it can reach on the line. */
module VideoId {
  import opened Strings

  /** Which regular-expression engine runs the patterns. */
  datatype Dialect = JavaScript | Python

  /** The three patterns, in the order they are tried. */
  datatype Pattern =
    | ShortForms   // (?:youtube\.com\/watch\?v=|youtu\.be\/|youtube\.com\/embed\/)([^&\n?#]+)
    | LegacyPath   // youtube\.com\/v\/([^&\n?#]+)
    | WatchQuery   // youtube\.com\/watch\?.*v=([^&\n?#]+)

  const Patterns: seq<Pattern> := [ShortForms, LegacyPath, WatchQuery]

  datatype Extraction = Extracted(id: string) | Invalid(message: string)

  const InvalidMessage := "Invalid YouTube URL or video ID"

  const ShortPrefixes: seq<string> := ["youtube.com/watch?v=", "youtu.be/", "youtube.com/embed/"]
  const LegacyPrefix := "youtube.com/v/"
  const WatchPrefix := "youtube.com/watch?"

  /** A match: where it starts and what group 1 captured. */
  datatype Found = Found(pos: nat, text: string)

  /** `[^&\n?#]` */
  predicate IsCaptureChar(c: char)
  {
    c != '&' && c != '\n' && c != '?' && c != '#'
  }

  /** `[a-zA-Z0-9_-]` */
  predicate IsIdChar(c: char)
  {
    ('a' <= c <= 'z') || ('A' <= c <= 'Z') || ('0' <= c <= '9') || c == '_' || c == '-'
  }

  /** What `.` matches: JavaScript excludes all four line terminators, Python only `\n`. */
  predicate DotMatches(d: Dialect, c: char)
  {
    match d
    case JavaScript => c != '\n' && c != '\r' && c != '\U{2028}' && c != '\U{2029}'
    case Python => c != '\n'
  }

  /** Length of the greedy run of capture characters starting at `i`. */
  function CaptureRun(s: string, i: nat): (n: nat)
    requires i <= |s|
    ensures i + n <= |s|
    ensures forall k :: i <= k < i + n ==> IsCaptureChar(s[k])
    ensures i + n == |s| || !IsCaptureChar(s[i + n])
    decreases |s| - i
  {
    if i < |s| && IsCaptureChar(s[i]) then 1 + CaptureRun(s, i + 1) else 0
  }

  /** Group 1 when the capture starts at `i`: the maximal run, if it is non-empty. */
  function CaptureAt(s: string, i: nat): (r: Option<string>)
    requires i <= |s|
    ensures r.Some? ==> r.value != [] && OccursAt(s, r.value, i)
    ensures r.Some? ==> forall k :: 0 <= k < |r.value| ==> IsCaptureChar(r.value[k])
  {
    var n := CaptureRun(s, i);
    if n == 0 then None else Some(s[i..i + n])
  }

  /** End of the run of characters `.` can consume from `b`. */
  function DotRunEnd(d: Dialect, s: string, b: nat): (e: nat)
    requires b <= |s|
    ensures b <= e <= |s|
    ensures forall k :: b <= k < e ==> DotMatches(d, s[k])
    decreases |s| - b
  {
    if b < |s| && DotMatches(d, s[b]) then DotRunEnd(d, s, b + 1) else b
  }

  /** Tries the alternatives of the first pattern from the `k`-th on, at position `p`. */
  function AlternativesAt(s: string, p: nat, k: nat): (r: Option<string>)
    requires p <= |s| && k <= |ShortPrefixes|
    ensures r.Some? ==> r.value != [] && forall j :: 0 <= j < |r.value| ==> IsCaptureChar(r.value[j])
    ensures r.Some? ==> Contains(s, r.value)
    decreases |ShortPrefixes| - k
  {
    if k == |ShortPrefixes| then None
    else
      var pre := ShortPrefixes[k];
      if OccursAt(s, pre, p) && CaptureAt(s, p + |pre|).Some? then
        var c := CaptureAt(s, p + |pre|).value;
        assert OccursAt(s, c, p + |pre|);
        Some(c)
      else AlternativesAt(s, p, k + 1)
  }

  /** `v=` at `q`, followed by at least one capture character. */
  predicate QueryAt(s: string, q: nat)
    ensures QueryAt(s, q) ==> OccursAt(s, "v=", q)
  {
    q + 3 <= |s| && s[q] == 'v' && s[q + 1] == '=' && IsCaptureChar(s[q + 2])
  }

  /** `.*v=` of the third pattern: the largest `q` in `[b, e]` where `v=` and a capture follow. */
  function LastQueryAt(s: string, b: nat, q: nat): (r: Option<nat>)
    requires b <= q <= |s|
    ensures r.Some? ==> b <= r.value <= q && QueryAt(s, r.value)
    decreases q - b
  {
    if QueryAt(s, q) then Some(q)
    else if q == b then None
    else LastQueryAt(s, b, q - 1)
  }

  /** The greedy `.*` backs off as little as it can: no `v=` with a capture lies after the one
      found. */
  lemma {:induction false} LastQueryAtIsLast(s: string, b: nat, q: nat)
    requires b <= q <= |s| && LastQueryAt(s, b, q).Some?
    ensures forall q' :: LastQueryAt(s, b, q).value < q' <= q ==> !QueryAt(s, q')
    decreases q - b
  {
    if !QueryAt(s, q) {
      LastQueryAtIsLast(s, b, q - 1);
    }
  }

  /** When no `v=` with a capture is found, there is none in the whole range. */
  lemma {:induction false} NoLastQuery(s: string, b: nat, q: nat)
    requires b <= q <= |s| && LastQueryAt(s, b, q).None?
    ensures forall q' :: b <= q' <= q ==> !QueryAt(s, q')
    decreases q - b
  {
    if q != b {
      NoLastQuery(s, b, q - 1);
    }
  }

  /** Group 1 of `pat` when the match starts exactly at `p`. */
  function MatchAt(pat: Pattern, d: Dialect, s: string, p: nat): (r: Option<string>)
    requires p <= |s|
    ensures r.Some? ==> r.value != [] && forall j :: 0 <= j < |r.value| ==> IsCaptureChar(r.value[j])
    ensures r.Some? ==> Contains(s, r.value)
  {
    match pat
    case ShortForms => AlternativesAt(s, p, 0)
    case LegacyPath =>
      if OccursAt(s, LegacyPrefix, p) then
        var c := CaptureAt(s, p + |LegacyPrefix|);
        if c.Some? then assert OccursAt(s, c.value, p + |LegacyPrefix|); c else c
      else None
    case WatchQuery =>
      if OccursAt(s, WatchPrefix, p) then
        var b := p + |WatchPrefix|;
        var f := LastQueryAt(s, b, DotRunEnd(d, s, b));
        if f.Some? then
          var c := CaptureAt(s, f.value + 2);
          assert c.Some?;
          assert OccursAt(s, c.value, f.value + 2);
          c
        else None
      else None
  }

  /** The leftmost position in `[from, n]` where `f` matches, with what it captured. */
  function LeftmostMatch(f: nat -> Option<string>, n: nat, from: nat): (r: Option<Found>)
    requires from <= n
    ensures r.Some? ==> from <= r.value.pos <= n && f(r.value.pos) == Some(r.value.text)
    decreases n - from
  {
    if f(from).Some? then Some(Found(from, f(from).value))
    else if from == n then None
    else LeftmostMatch(f, n, from + 1)
  }

  lemma {:induction false} NothingBeforeLeftmost(f: nat -> Option<string>, n: nat, from: nat)
    requires from <= n && LeftmostMatch(f, n, from).Some?
    ensures forall p :: from <= p < LeftmostMatch(f, n, from).value.pos ==> f(p).None?
    decreases n - from
  {
    if f(from).None? {
      NothingBeforeLeftmost(f, n, from + 1);
    }
  }

  lemma {:induction false} NoLeftmostNoMatch(f: nat -> Option<string>, n: nat, from: nat)
    requires from <= n && LeftmostMatch(f, n, from).None?
    ensures forall p :: from <= p <= n ==> f(p).None?
    decreases n - from
  {
    if from < n {
      NoLeftmostNoMatch(f, n, from + 1);
    }
  }

  lemma {:induction false} LeftmostMatchAgrees(f: nat -> Option<string>, g: nat -> Option<string>, n: nat, from: nat)
    requires from <= n
    requires forall p :: from <= p <= n ==> f(p) == g(p)
    ensures LeftmostMatch(f, n, from) == LeftmostMatch(g, n, from)
    decreases n - from
  {
    if f(from).None? && from < n {
      LeftmostMatchAgrees(f, g, n, from + 1);
    }
  }

  lemma {:induction false} LeftmostMatchFinds(f: nat -> Option<string>, n: nat, from: nat, q: nat)
    requires from <= q <= n
    requires forall p :: from <= p < q ==> f(p).None?
    requires f(q).Some?
    ensures LeftmostMatch(f, n, from) == Some(Found(q, f(q).value))
    decreases q - from
  {
    if from < q {
      LeftmostMatchFinds(f, n, from + 1, q);
    }
  }

  /** Group 1 of `pat` at each position of `s`. */
  function Matcher(pat: Pattern, d: Dialect, s: string): nat -> Option<string>
  {
    (p: nat) => if p <= |s| then MatchAt(pat, d, s, p) else None
  }

  /** `url.match(pattern)` / `re.search(pattern, url)`: the leftmost match at or after `from`. */
  function Search(pat: Pattern, d: Dialect, s: string, from: nat): (r: Option<Found>)
    requires from <= |s|
    ensures r.Some? ==> from <= r.value.pos <= |s| && MatchAt(pat, d, s, r.value.pos) == Some(r.value.text)
  {
    LeftmostMatch(Matcher(pat, d, s), |s|, from)
  }

  /** The match reported is the leftmost one: no earlier position matches. */
  lemma SearchIsLeftmost(pat: Pattern, d: Dialect, s: string, from: nat)
    requires from <= |s| && Search(pat, d, s, from).Some?
    ensures forall p :: from <= p < Search(pat, d, s, from).value.pos ==> MatchAt(pat, d, s, p).None?
  {
    var f := Matcher(pat, d, s);
    NothingBeforeLeftmost(f, |s|, from);
    forall p | from <= p < Search(pat, d, s, from).value.pos
      ensures MatchAt(pat, d, s, p).None?
    {
      assert f(p).None?;
    }
  }

  /** When the search fails, no position from `from` on matches. */
  lemma SearchFailsEverywhere(pat: Pattern, d: Dialect, s: string, from: nat)
    requires from <= |s| && Search(pat, d, s, from).None?
    ensures forall p :: from <= p <= |s| ==> MatchAt(pat, d, s, p).None?
  {
    var f := Matcher(pat, d, s);
    NoLeftmostNoMatch(f, |s|, from);
    forall p | from <= p <= |s|
      ensures MatchAt(pat, d, s, p).None?
    {
      assert f(p).None?;
    }
  }

  /** The bare-ID fallback: `url.length === 11 && /^[a-zA-Z0-9_-]+$/.test(url)` in JavaScript;
      in Python `re.match` with `$`, which also matches just before a final newline. */
  predicate IsBareId(d: Dialect, url: string)
    ensures IsVideoId(url) ==> IsBareId(d, url)
    ensures d == JavaScript ==> (IsBareId(d, url) <==> IsVideoId(url))
  {
    |url| == 11 &&
    ((forall k :: 0 <= k < 11 ==> IsIdChar(url[k])) ||
     (d == Python && url[10] == '\n' && forall k :: 0 <= k < 10 ==> IsIdChar(url[k])))
  }

  /** An eleven-character YouTube ID over `[A-Za-z0-9_-]`. */
  predicate IsVideoId(s: string)
  {
    |s| == 11 && forall k :: 0 <= k < 11 ==> IsIdChar(s[k])
  }

  /** The patterns from the `k`-th on, tried in order; the first one that matches decides. */
  function FirstPatternMatch(d: Dialect, url: string, k: nat): (r: Option<string>)
    requires k <= |Patterns|
    ensures r.Some? ==> r.value != [] && forall j :: 0 <= j < |r.value| ==> IsCaptureChar(r.value[j])
    ensures r.Some? ==> Contains(url, r.value)
    ensures r.Some? <==> exists j :: k <= j < |Patterns| && Search(Patterns[j], d, url, 0).Some?
    decreases |Patterns| - k
  {
    if k == |Patterns| then None
    else
      var f := Search(Patterns[k], d, url, 0);
      if f.Some? then
        assert MatchAt(Patterns[k], d, url, f.value.pos) == Some(f.value.text);
        Some(f.value.text)
      else FirstPatternMatch(d, url, k + 1)
  }

  function ExtractVideoId(d: Dialect, url: string): (r: Extraction)
    // a returned capture is non-empty, free of &, ?, # and newline, and taken from the URL
    ensures r.Extracted? ==> r.id != [] && Contains(url, r.id)
    ensures r.Extracted? ==>
      (forall j :: 0 <= j < |r.id| ==> IsCaptureChar(r.id[j])) ||
      (d == Python && r.id == url && |url| == 11 && url[10] == '\n')
    // the error is raised exactly when no pattern matches and the input is not a bare ID
    ensures r.Invalid? <==>
      (forall j :: 0 <= j < |Patterns| ==> Search(Patterns[j], d, url, 0).None?) && !IsBareId(d, url)
    ensures r.Invalid? ==> r.message == InvalidMessage
  {
    var m := FirstPatternMatch(d, url, 0);
    if m.Some? then Extracted(m.value)
    else if IsBareId(d, url) then
      assert OccursAt(url, url, 0);
      Extracted(url)
    else Invalid(InvalidMessage)
  }

  // ---------------------------------------------------------------- properties

  /** Pattern order: the capture of the first pattern that matches anywhere is returned,
      and later patterns are never consulted. */
  lemma {:induction false} FirstMatchingPatternWins(d: Dialect, url: string, k: nat)
    requires k < |Patterns|
    requires forall j :: 0 <= j < k ==> Search(Patterns[j], d, url, 0).None?
    requires Search(Patterns[k], d, url, 0).Some?
    ensures ExtractVideoId(d, url) == Extracted(Search(Patterns[k], d, url, 0).value.text)
  {
    FirstPatternFrom(d, url, 0, k);
  }

  lemma {:induction false} FirstPatternFrom(d: Dialect, url: string, i: nat, k: nat)
    requires i <= k < |Patterns|
    requires forall j :: i <= j < k ==> Search(Patterns[j], d, url, 0).None?
    requires Search(Patterns[k], d, url, 0).Some?
    ensures FirstPatternMatch(d, url, i) == Some(Search(Patterns[k], d, url, 0).value.text)
    decreases k - i
  {
    if i < k {
      FirstPatternFrom(d, url, i + 1, k);
      assert Search(Patterns[i], d, url, 0).None?;
      assert FirstPatternMatch(d, url, i) == FirstPatternMatch(d, url, i + 1);
    } else {
      var f := Search(Patterns[k], d, url, 0);
      assert FirstPatternMatch(d, url, k) == Some(f.value.text);
    }
  }

  /** Every pattern needs a literal `.` (in "youtube.com" or "youtu.be"), so a string without
      one matches none of them. */
  lemma NoDotNoMatch(d: Dialect, s: string, pat: Pattern, p: nat)
    requires p <= |s|
    requires forall k :: 0 <= k < |s| ==> s[k] != '.'
    ensures MatchAt(pat, d, s, p).None?
  {
    NoDotNoPrefix(s, ShortPrefixes[0], p, 7);
    NoDotNoPrefix(s, ShortPrefixes[1], p, 5);
    NoDotNoPrefix(s, ShortPrefixes[2], p, 7);
    NoDotNoPrefix(s, LegacyPrefix, p, 7);
    NoDotNoPrefix(s, WatchPrefix, p, 7);
  }

  lemma NoDotNoPrefix(s: string, pre: string, p: nat, k: nat)
    requires k < |pre| && pre[k] == '.'
    requires forall j :: 0 <= j < |s| ==> s[j] != '.'
    ensures !OccursAt(s, pre, p)
  {
  }

  lemma NoDotSearchesFail(d: Dialect, s: string)
    requires forall k :: 0 <= k < |s| ==> s[k] != '.'
    ensures forall j :: 0 <= j < |Patterns| ==> Search(Patterns[j], d, s, 0).None?
  {
    forall j, p | 0 <= j < |Patterns| && 0 <= p <= |s|
      ensures MatchAt(Patterns[j], d, s, p).None?
    {
      NoDotNoMatch(d, s, Patterns[j], p);
    }
  }

  /** An eleven-character ID matches no URL pattern and comes back unchanged, so extraction is
      idempotent on IDs, in both dialects. */
  lemma BareIdIsFixedPoint(d: Dialect, id: string)
    requires IsVideoId(id)
    ensures ExtractVideoId(d, id) == Extracted(id)
    ensures ExtractVideoId(d, ExtractVideoId(d, id).id) == ExtractVideoId(d, id)
  {
    NoDotSearchesFail(d, id);
  }

  /** Python's `$` accepts a ten-character ID followed by a newline and returns it with the
      newline; the JavaScript copies reject the same input. */
  lemma TrailingNewlineOnlyPython(id10: string)
    requires |id10| == 10 && forall k :: 0 <= k < 10 ==> IsIdChar(id10[k])
    ensures ExtractVideoId(Python, id10 + "\n") == Extracted(id10 + "\n")
    ensures ExtractVideoId(JavaScript, id10 + "\n") == Invalid(InvalidMessage)
  {
    var s := id10 + "\n";
    assert forall k :: 0 <= k < |s| ==> s[k] != '.' by {
      forall k | 0 <= k < |s| ensures s[k] != '.' {
        if k < 10 { assert s[k] == id10[k]; }
      }
    }
    NoDotSearchesFail(Python, s);
    NoDotSearchesFail(JavaScript, s);
    assert !IsIdChar(s[10]);
  }

  /** Input that is neither a recognised URL nor an ID is rejected with the fixed message. */
  lemma GarbageIsRejected(d: Dialect, s: string)
    requires forall k :: 0 <= k < |s| ==> s[k] != '.'
    requires |s| != 11
    ensures ExtractVideoId(d, s) == Invalid(InvalidMessage)
  {
    NoDotSearchesFail(d, s);
  }

  lemma {:induction false} CaptureRunAll(s: string, i: nat)
    requires i <= |s|
    requires forall k :: i <= k < |s| ==> IsCaptureChar(s[k])
    ensures CaptureRun(s, i) == |s| - i
    decreases |s| - i
  {
    if i < |s| { CaptureRunAll(s, i + 1); }
  }

  /** A `youtu.be/` short link yields exactly the ID it carries. */
  lemma ShortLinkYieldsId(d: Dialect, id: string)
    requires IsVideoId(id)
    ensures ExtractVideoId(d, "youtu.be/" + id) == Extracted(id)
  {
    var s := "youtu.be/" + id;
    assert !OccursAt(s, ShortPrefixes[0], 0) by { assert s[5] != ShortPrefixes[0][5]; }
    assert OccursAt(s, ShortPrefixes[1], 0) by { assert s[..9] == "youtu.be/"; }
    assert forall k :: 9 <= k < |s| ==> s[k] == id[k - 9];
    CaptureRunAll(s, 9);
    assert s[9..9 + 11] == id;
    assert CaptureAt(s, 9) == Some(id);
    assert AlternativesAt(s, 0, 1) == Some(id);
    assert MatchAt(ShortForms, d, s, 0) == Some(id);
  }

  // ---------------------------------------------------------------- the four copies agree

  predicate HasOtherLineTerminator(s: string)
  {
    exists k :: 0 <= k < |s| && (s[k] == '\r' || s[k] == '\U{2028}' || s[k] == '\U{2029}')
  }

  lemma {:induction false} DotRunAgrees(s: string, b: nat)
    requires b <= |s|
    requires !HasOtherLineTerminator(s)
    ensures DotRunEnd(JavaScript, s, b) == DotRunEnd(Python, s, b)
    decreases |s| - b
  {
    if b < |s| {
      assert !(s[b] == '\r' || s[b] == '\U{2028}' || s[b] == '\U{2029}');
      DotRunAgrees(s, b + 1);
    }
  }

  lemma SearchAgrees(pat: Pattern, s: string, from: nat)
    requires from <= |s|
    requires !HasOtherLineTerminator(s)
    ensures Search(pat, JavaScript, s, from) == Search(pat, Python, s, from)
  {
    var f := Matcher(pat, JavaScript, s);
    var g := Matcher(pat, Python, s);
    forall p | from <= p <= |s| ensures f(p) == g(p) {
      MatchAtAgrees(pat, s, p);
    }
    LeftmostMatchAgrees(f, g, |s|, from);
  }

  lemma MatchAtAgrees(pat: Pattern, s: string, p: nat)
    requires p <= |s|
    requires !HasOtherLineTerminator(s)
    ensures MatchAt(pat, JavaScript, s, p) == MatchAt(pat, Python, s, p)
  {
    if pat == WatchQuery && OccursAt(s, WatchPrefix, p) {
      DotRunAgrees(s, p + |WatchPrefix|);
    }
  }

  /** The JavaScript and Python copies give the same answer on every input that contains no
      carriage return or Unicode line/paragraph separator and does not end in a newline. */
  lemma DialectsAgree(url: string)
    requires !HasOtherLineTerminator(url)
    requires |url| == 0 || url[|url| - 1] != '\n'
    ensures ExtractVideoId(JavaScript, url) == ExtractVideoId(Python, url)
  {
    forall j | 0 <= j < |Patterns|
      ensures Search(Patterns[j], JavaScript, url, 0) == Search(Patterns[j], Python, url, 0)
    {
      SearchAgrees(Patterns[j], url, 0);
    }
    assert FirstPatternMatch(JavaScript, url, 2) == FirstPatternMatch(Python, url, 2);
    assert FirstPatternMatch(JavaScript, url, 1) == FirstPatternMatch(Python, url, 1);
  }
}
