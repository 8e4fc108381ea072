/** The Flask service in `python_backend/app.py`: transcript clean-up, the validation of
    `/process_video` and the `/search_transcript` endpoint.

    A request body is the decoded JSON object, or `None` when there is none; the fetch from
    YouTube and the model call are inputs to the handlers, since their results come from
    outside the program. */
module PythonBackend {
  import opened Strings
  import opened Lists
  import opened VideoId
  import opened TranscriptSearch

  type Body = Option<map<string, string>>

  /** `not data or key not in data` fails for every key in `keys`. */
  predicate HasAll(body: Body, keys: seq<string>)
  {
    body.Some? && forall k | k in keys :: k in body.value
  }

  // ---------------------------------------------------------------- annotations

  /** Scanning after a '[': a ']' comes before any newline, so `\[.*?\]` matches here. */
  predicate ReachesClose(u: string)
  {
    u != [] && (u[0] == ']' || (u[0] != '\n' && ReachesClose(u[1..])))
  }

  /** Index in `u` of the ']' that closes the annotation: the first one. */
  function CloseIndex(u: string): (j: nat)
    requires ReachesClose(u)
    ensures j < |u| && u[j] == ']'
    ensures forall k :: 0 <= k < j ==> u[k] != ']' && u[k] != '\n'
  {
    if u[0] == ']' then 0 else 1 + CloseIndex(u[1..])
  }

  /** `re.sub(r'\[.*?\]', '', s)`: leftmost, non-greedy, and `.` stops at a newline. */
  function RemoveAnnotations(s: string): (r: string)
    ensures |r| <= |s|
    decreases |s|
  {
    if s == [] then []
    else if s[0] == '[' && ReachesClose(s[1..]) then RemoveAnnotations(s[1..][CloseIndex(s[1..]) + 1..])
    else [s[0]] + RemoveAnnotations(s[1..])
  }

  /** No '[' is followed by a ']' on the same line. */
  predicate NoAnnotation(t: string)
  {
    forall i | 0 <= i < |t| && t[i] == '[' :: !ReachesClose(t[i + 1..])
  }

  lemma {:induction false} RemovalKeepsOpenLine(u: string)
    requires !ReachesClose(u)
    ensures !ReachesClose(RemoveAnnotations(u))
    decreases |u|
  {
    if u != [] && u[0] != '\n' {
      assert u[0] != ']' && !ReachesClose(u[1..]);
      if u[0] == '[' {
        assert !ReachesClose(u[1..]);
      }
      RemovalKeepsOpenLine(u[1..]);
      var r := RemoveAnnotations(u);
      assert r == [u[0]] + RemoveAnnotations(u[1..]);
      assert r[1..] == RemoveAnnotations(u[1..]);
    }
  }

  /** After the removal no annotation is left, because removed text never spans a newline. */
  lemma {:induction false} RemovalLeavesNoAnnotation(s: string)
    ensures NoAnnotation(RemoveAnnotations(s))
    decreases |s|
  {
    if s != [] {
      if s[0] == '[' && ReachesClose(s[1..]) {
        RemovalLeavesNoAnnotation(s[1..][CloseIndex(s[1..]) + 1..]);
      } else {
        RemovalLeavesNoAnnotation(s[1..]);
        var t := RemoveAnnotations(s[1..]);
        if s[0] == '[' {
          RemovalKeepsOpenLine(s[1..]);
        }
        NoAnnotationCons(s[0], t);
        assert RemoveAnnotations(s) == [s[0]] + t;
      }
    }
  }

  /** A character in front of annotation-free text adds no annotation unless it opens one. */
  lemma NoAnnotationCons(c: char, t: string)
    requires NoAnnotation(t)
    requires c == '[' ==> !ReachesClose(t)
    ensures NoAnnotation([c] + t)
  {
    var r := [c] + t;
    forall i | 0 <= i < |r| && r[i] == '['
      ensures !ReachesClose(r[i + 1..])
    {
      if i > 0 {
        assert r[i + 1..] == t[i..];
        assert t[i - 1] == '[';
      } else {
        assert r[1..] == t;
      }
    }
  }

  lemma {:induction false} RemovalIdentity(t: string)
    requires NoAnnotation(t)
    ensures RemoveAnnotations(t) == t
    decreases |t|
  {
    if t != [] {
      assert NoAnnotation(t[1..]) by {
        forall i | 0 <= i < |t[1..]| && t[1..][i] == '['
          ensures !ReachesClose(t[1..][i + 1..])
        {
          assert t[1..][i + 1..] == t[i + 2..];
        }
      }
      RemovalIdentity(t[1..]);
    }
  }

  /** Removing annotations twice removes nothing more. */
  lemma RemoveAnnotationsIdempotent(s: string)
    ensures RemoveAnnotations(RemoveAnnotations(s)) == RemoveAnnotations(s)
  {
    RemovalLeavesNoAnnotation(s);
    RemovalIdentity(RemoveAnnotations(s));
  }

  function IsNewline(c: char): bool { c == '\n' }

  /** Newlines are never removed: `.` does not match them and they are not brackets. */
  lemma {:induction false} RemovalKeepsNewlines(s: string)
    ensures Filter(RemoveAnnotations(s), IsNewline) == Filter(s, IsNewline)
    decreases |s|
  {
    if s != [] {
      if s[0] == '[' && ReachesClose(s[1..]) {
        var rest := s[1..][CloseIndex(s[1..]) + 1..];
        assert RemoveAnnotations(s) == RemoveAnnotations(rest);
        RemovalKeepsNewlines(rest);
        AnnotationHasNoNewline(s);
      } else {
        var t := RemoveAnnotations(s[1..]);
        assert RemoveAnnotations(s) == [s[0]] + t;
        calc {
          Filter(RemoveAnnotations(s), IsNewline);
          Filter([s[0]] + t, IsNewline);
          { FilterCons(s[0], t); }
          Filter([s[0]], IsNewline) + Filter(t, IsNewline);
          { RemovalKeepsNewlines(s[1..]); }
          Filter([s[0]], IsNewline) + Filter(s[1..], IsNewline);
          { FilterCons(s[0], s[1..]); assert s == [s[0]] + s[1..]; }
          Filter(s, IsNewline);
        }
      }
    }
  }

  /** The newlines of `[c] + t` are those of `[c]` followed by those of `t`. */
  lemma FilterCons(c: char, t: string)
    ensures Filter([c] + t, IsNewline) == Filter([c], IsNewline) + Filter(t, IsNewline)
  {
    FilterAppend([c], t, IsNewline);
  }

  /** A removed annotation holds no newline. */
  lemma AnnotationHasNoNewline(s: string)
    requires s != [] && s[0] == '[' && ReachesClose(s[1..])
    ensures Filter(s, IsNewline) == Filter(s[1..][CloseIndex(s[1..]) + 1..], IsNewline)
  {
    var u := s[1..];
    var j := CloseIndex(u);
    var dropped := [s[0]] + u[..j + 1];
    var rest := u[j + 1..];
    assert s == dropped + rest;
    forall k | 0 <= k < |dropped| ensures !IsNewline(dropped[k]) {
      if k > 0 { assert dropped[k] == u[k - 1]; }
    }
    FilterNone(dropped, IsNewline);
    FilterAppend(dropped, rest, IsNewline);
    assert [] + Filter(rest, IsNewline) == Filter(rest, IsNewline);
  }

  // ---------------------------------------------------------------- whitespace

  /** Drops the leading run of whitespace. */
  function DropSpaces(s: string): (r: string)
    ensures |r| <= |s| && r == s[|s| - |r|..]
    ensures r == [] || !IsSpace(r[0])
    ensures forall k :: 0 <= k < |s| - |r| ==> IsSpace(s[k])
  {
    TrimStart(s)
  }

  /** `re.sub(r'\s+', ' ', s)`: every run of whitespace becomes one space. */
  function CollapseWhitespace(s: string): (r: string)
    ensures |r| <= |s|
    ensures r != [] && s != [] ==> (IsSpace(r[0]) <==> IsSpace(s[0]))
    decreases |s|
  {
    if s == [] then []
    else if IsSpace(s[0]) then [' '] + CollapseWhitespace(DropSpaces(s))
    else [s[0]] + CollapseWhitespace(s[1..])
  }

  /** Only single spaces separate words: no other whitespace, and never two in a row. */
  predicate SingleSpaced(t: string)
  {
    (forall k | 0 <= k < |t| && IsSpace(t[k]) :: t[k] == ' ') &&
    (forall k | 0 <= k < |t| - 1 :: !(IsSpace(t[k]) && IsSpace(t[k + 1])))
  }

  lemma {:induction false} CollapseSingleSpaced(s: string)
    ensures SingleSpaced(CollapseWhitespace(s))
    decreases |s|
  {
    if s != [] {
      var r := CollapseWhitespace(s);
      var rest := if IsSpace(s[0]) then DropSpaces(s) else s[1..];
      CollapseSingleSpaced(rest);
      var t := CollapseWhitespace(rest);
      assert r[1..] == t;
      assert IsSpace(s[0]) && t != [] ==> !IsSpace(t[0]);
      forall k | 0 <= k < |r| - 1
        ensures !(IsSpace(r[k]) && IsSpace(r[k + 1]))
      {
        if k > 0 {
          assert r[k] == t[k - 1] && r[k + 1] == t[k];
        }
      }
    }
  }

  function IsWordChar(c: char): bool { !IsSpace(c) }

  /** Collapsing keeps every non-space character, in order. */
  lemma {:induction false} CollapseKeepsWords(s: string)
    ensures Filter(CollapseWhitespace(s), IsWordChar) == Filter(s, IsWordChar)
    decreases |s|
  {
    if s != [] {
      if IsSpace(s[0]) {
        var d := DropSpaces(s);
        CollapseKeepsWords(d);
        FilterSkipRejected(s, |s| - |d|, IsWordChar);
        FilterSkipRejected([' '] + CollapseWhitespace(d), 1, IsWordChar);
        assert ([' '] + CollapseWhitespace(d))[1..] == CollapseWhitespace(d);
      } else {
        CollapseKeepsWords(s[1..]);
        var r := CollapseWhitespace(s);
        assert r[0] == s[0] && r[1..] == CollapseWhitespace(s[1..]);
      }
    }
  }

  /** Text made only of whitespace. */
  predicate AllSpace(w: string)
  {
    forall k :: 0 <= k < |w| ==> IsSpace(w[k])
  }

  /** Text without any whitespace. */
  predicate NoSpace(u: string)
  {
    forall k :: 0 <= k < |u| ==> !IsSpace(u[k])
  }

  /** A whitespace run at the front goes exactly as far as the first non-space. */
  lemma DropSpaceRun(w: string, v: string)
    requires AllSpace(w)
    requires v == [] || !IsSpace(v[0])
    ensures DropSpaces(w + v) == v
  {
    var s := w + v;
    var r := DropSpaces(s);
    assert s[|w|..] == v;
  }

  /** Text ending in a non-space keeps its leading run's end inside it. */
  lemma DropSpacesAppend(u: string, v: string)
    requires u != [] && !IsSpace(u[|u| - 1])
    ensures DropSpaces(u + v) == DropSpaces(u) + v
  {
    var d := DropSpaces(u);
    var w := u[..|u| - |d|];
    assert u == w + d;
    ConcatAssoc(w, d, v);
    assert AllSpace(w);
    assert (d + v)[0] == d[0];
    DropSpaceRun(w, d + v);
  }

  /** One step of the collapse at a leading whitespace run, with and without a tail. */
  lemma CollapseRunStep(u: string, v: string)
    requires u != [] && IsSpace(u[0]) && !IsSpace(u[|u| - 1])
    ensures var d := DropSpaces(u);
      d != [] && |d| < |u| && !IsSpace(d[|d| - 1]) &&
      CollapseWhitespace(u) == [' '] + CollapseWhitespace(d) &&
      CollapseWhitespace(u + v) == [' '] + CollapseWhitespace(d + v)
  {
    DropSpacesAppend(u, v);
    assert (u + v)[0] == u[0];
  }

  /** One step of the collapse at a leading non-space, with and without a tail. */
  lemma CollapseCharStep(u: string, v: string)
    requires u != [] && !IsSpace(u[0])
    ensures CollapseWhitespace(u) == [u[0]] + CollapseWhitespace(u[1..])
    ensures CollapseWhitespace(u + v) == [u[0]] + CollapseWhitespace(u[1..] + v)
  {
    assert (u + v)[0] == u[0];
    assert (u + v)[1..] == u[1..] + v;
  }

  /** Concatenation regrouped; stated once so the proofs below need not rediscover it. */
  lemma ConcatAssoc(a: string, b: string, c: string)
    ensures a + (b + c) == (a + b) + c
  {
  }

  /** A cut just after a non-space splits the collapse in two: runs never straddle it. */
  lemma {:induction false} CollapseAppend(u: string, v: string)
    requires u == [] || !IsSpace(u[|u| - 1])
    ensures CollapseWhitespace(u + v) == CollapseWhitespace(u) + CollapseWhitespace(v)
    decreases |u|
  {
    if u == [] {
      assert u + v == v;
    } else if IsSpace(u[0]) {
      var d := DropSpaces(u);
      CollapseRunStep(u, v);
      CollapseAppend(d, v);
      ConcatAssoc([' '], CollapseWhitespace(d), CollapseWhitespace(v));
    } else {
      CollapseCharStep(u, v);
      CollapseAppend(u[1..], v);
      ConcatAssoc([u[0]], CollapseWhitespace(u[1..]), CollapseWhitespace(v));
    }
  }

  /** A whole whitespace run in front of a non-space becomes exactly one space. */
  lemma CollapseSpaceRun(w: string, v: string)
    requires w != [] && AllSpace(w)
    requires v == [] || !IsSpace(v[0])
    ensures CollapseWhitespace(w + v) == [' '] + CollapseWhitespace(v)
  {
    assert IsSpace((w + v)[0]);
    DropSpaceRun(w, v);
  }

  /** A word without whitespace comes through unchanged. */
  lemma {:induction false} CollapseWord(u: string)
    requires NoSpace(u)
    ensures CollapseWhitespace(u) == u
    decreases |u|
  {
    if u != [] {
      assert !IsSpace(u[0]) && NoSpace(u[1..]);
      CollapseWord(u[1..]);
    }
  }

  /** Two words with any whitespace run between them come out with exactly one space. */
  lemma CollapseWordGap(a: string, w: string, b: string)
    requires a != [] && NoSpace(a)
    requires w != [] && AllSpace(w)
    requires NoSpace(b)
    ensures CollapseWhitespace(a + w + b) == a + [' '] + b
  {
    var tail := w + b;
    ConcatAssoc(a, w, b);
    assert !IsSpace(a[|a| - 1]);
    assert b == [] || !IsSpace(b[0]);
    CollapseSpaceRun(w, b);
    CollapseWord(b);
    assert CollapseWhitespace(tail) == [' '] + b;
    CollapseAppend(a, tail);
    CollapseWord(a);
    ConcatAssoc(a, [' '], b);
  }

  /** Collapsing keeps a final non-space character at the end. */
  lemma {:induction false} CollapseKeepsLast(s: string)
    requires s != [] && !IsSpace(s[|s| - 1])
    ensures var r := CollapseWhitespace(s); r != [] && r[|r| - 1] == s[|s| - 1]
    decreases |s|
  {
    if IsSpace(s[0]) {
      CollapseKeepsLast(DropSpaces(s));
    } else if |s| > 1 {
      CollapseKeepsLast(s[1..]);
    }
  }

  /** A collapsed text that starts and ends with a non-space has nothing to strip. */
  lemma TrimCollapsed(t: string)
    requires t != [] && !IsSpace(t[0]) && !IsSpace(t[|t| - 1])
    ensures Trim(CollapseWhitespace(t)) == CollapseWhitespace(t)
  {
    var c := CollapseWhitespace(t);
    CollapseKeepsLast(t);
    assert TrimStart(c) == c;
    assert TrimEnd(c) == c;
  }

  /** Dropping trailing rejected elements does not change the filter either. */
  lemma FilterDropRejectedTail(xs: string, k: nat)
    requires k <= |xs|
    requires forall j :: k <= j < |xs| ==> IsSpace(xs[j])
    ensures Filter(xs, IsWordChar) == Filter(xs[..k], IsWordChar)
  {
    var a := xs[..k];
    var b := xs[k..];
    forall j | 0 <= j < |b| ensures !IsWordChar(b[j]) {
      assert b[j] == xs[k + j];
    }
    FilterNone(b, IsWordChar);
    assert xs == a + b;
    FilterAppend(a, b, IsWordChar);
    assert Filter(a, IsWordChar) + [] == Filter(a, IsWordChar);
  }

  /** Trimming keeps every non-space character, in order. */
  lemma TrimKeepsWords(s: string)
    ensures Filter(Trim(s), IsWordChar) == Filter(s, IsWordChar)
  {
    var t := TrimStart(s);
    var r := TrimEnd(t);
    FilterSkipRejected(s, |s| - |t|, IsWordChar);
    FilterDropRejectedTail(t, |r|);
  }

  /** Trimming a single-spaced text leaves it single-spaced. */
  lemma TrimKeepsSingleSpaced(s: string)
    requires SingleSpaced(s)
    ensures SingleSpaced(Trim(s))
  {
    var r := Trim(s);
    var i :| 0 <= i <= |s| - |r| && OccursAt(s, r, i);
    forall k | 0 <= k < |r|
      ensures r[k] == s[i + k]
    {
      assert r[k] == s[i..i + |r|][k];
    }
  }

  // ---------------------------------------------------------------- get_transcript

  /** The text `get_transcript` returns for the fetched fragments. */
  function CleanTranscript(fragments: seq<string>): (r: string)
    ensures r == [] || (!IsSpace(r[0]) && !IsSpace(r[|r| - 1]))
  {
    Trim(CollapseWhitespace(RemoveAnnotations(Join(fragments, " "))))
  }

  /** The cleaned text is stripped, single-spaced, and keeps every non-space character of the
      annotation-free join. */
  lemma CleanTranscriptShape(fragments: seq<string>)
    ensures var r := CleanTranscript(fragments);
      r == [] || (!IsSpace(r[0]) && !IsSpace(r[|r| - 1]))
    ensures SingleSpaced(CleanTranscript(fragments))
    ensures Filter(CleanTranscript(fragments), IsWordChar) ==
            Filter(RemoveAnnotations(Join(fragments, " ")), IsWordChar)
    ensures var t := RemoveAnnotations(Join(fragments, " "));
      t != [] && !IsSpace(t[0]) && !IsSpace(t[|t| - 1]) ==> CleanTranscript(fragments) == CollapseWhitespace(t)
  {
    var t := RemoveAnnotations(Join(fragments, " "));
    var c := CollapseWhitespace(t);
    CleanTranscriptIsCollapse(fragments);
    CollapseSingleSpaced(RemoveAnnotations(Join(fragments, " ")));
    TrimKeepsSingleSpaced(c);
    TrimKeepsWords(c);
    CollapseKeepsWords(RemoveAnnotations(Join(fragments, " ")));
  }

  /** When the annotation-free text has no whitespace at either end, stripping has nothing to do. */
  lemma CleanTranscriptIsCollapse(fragments: seq<string>)
    ensures var t := RemoveAnnotations(Join(fragments, " "));
      t != [] && !IsSpace(t[0]) && !IsSpace(t[|t| - 1]) ==> CleanTranscript(fragments) == CollapseWhitespace(t)
  {
    var t := RemoveAnnotations(Join(fragments, " "));
    if t != [] && !IsSpace(t[0]) && !IsSpace(t[|t| - 1]) {
      TrimCollapsed(t);
    }
  }

  /** A character that is neither whitespace nor a bracket. */
  predicate Plain(c: char)
  {
    !IsSpace(c) && c != '[' && c != ']'
  }

  lemma SplitAnnotationKept(x: char, y: char)
    requires Plain(x) && Plain(y)
    ensures RemoveAnnotations(['[', x, '\n', y, ']']) == ['[', x, '\n', y, ']']
  {
    var s := ['[', x, '\n', y, ']'];
    assert s[1..] == [x, '\n', y, ']'];
    assert [x, '\n', y, ']'][1..] == ['\n', y, ']'];
    assert ['\n', y, ']'][1..] == [y, ']'];
    assert [y, ']'][1..] == [']'];
    assert !ReachesClose(s[1..]);
    assert RemoveAnnotations([']']) == [']'];
    assert RemoveAnnotations([y, ']']) == [y, ']'];
    assert RemoveAnnotations(['\n', y, ']']) == ['\n', y, ']'];
    assert RemoveAnnotations([x, '\n', y, ']']) == [x, '\n', y, ']'];
  }

  lemma SplitAnnotationJoined(x: char, y: char)
    requires Plain(x) && Plain(y)
    ensures CollapseWhitespace(['[', x, '\n', y, ']']) == ['[', x, ' ', y, ']']
  {
    var ye: string := [y, ']'];
    var nye := ['\n'] + ye;
    CollapseKeeps(']', []);
    assert CollapseWhitespace([] + [']']) == [']'];
    CollapseKeeps(y, [']']);
    assert CollapseWhitespace(ye) == ye;
    assert nye[1..] == ye;
    assert DropSpaces(nye) == ye;
    assert CollapseWhitespace(nye) == [' '] + ye;
    CollapseKeeps(x, nye);
    CollapseKeeps('[', [x] + nye);
    assert ['[', x, '\n', y, ']'] == ['['] + ([x] + nye);
  }

  /** A non-space character is copied and the collapse goes on after it. */
  lemma CollapseKeeps(c: char, t: string)
    requires !IsSpace(c)
    ensures CollapseWhitespace([c] + t) == [c] + CollapseWhitespace(t)
  {
    assert ([c] + t)[1..] == t;
  }

  lemma TrimKeepsWordEdges(s: string)
    requires s != [] && !IsSpace(s[0]) && !IsSpace(s[|s| - 1])
    ensures Trim(s) == s
  {
    assert TrimStart(s) == s;
    assert TrimEnd(s) == s;
    assert Trim(s) == TrimEnd(TrimStart(s));
  }

  lemma SingleLineAnnotationRemoved(x: char, y: char)
    requires Plain(x) && Plain(y)
    ensures RemoveAnnotations(['[', x, ' ', y, ']']) == []
  {
    var t := ['[', x, ' ', y, ']'];
    assert t[1..] == [x, ' ', y, ']'];
    assert [x, ' ', y, ']'][1..] == [' ', y, ']'];
    assert [' ', y, ']'][1..] == [y, ']'];
    assert [y, ']'][1..] == [']'];
    assert ReachesClose([']']);
    assert ReachesClose([y, ']']);
    assert ReachesClose([' ', y, ']']);
    assert ReachesClose([x, ' ', y, ']']);
    assert CloseIndex([x, ' ', y, ']']) == 3;
    assert t[1..][4..] == [];
  }

  /** Annotations are removed before newlines become spaces, so the clean-up is not idempotent:
      a bracketed pair split across lines survives once and is removed the second time. */
  lemma CleanupNotIdempotent(x: char, y: char)
    requires Plain(x) && Plain(y)
    ensures CleanTranscript([['[', x, '\n', y, ']']]) == ['[', x, ' ', y, ']']
    ensures CleanTranscript([CleanTranscript([['[', x, '\n', y, ']']])]) == []
  {
    SplitAnnotationKept(x, y);
    SplitAnnotationJoined(x, y);
    TrimKeepsWordEdges(['[', x, ' ', y, ']']);
    SingleLineAnnotationRemoved(x, y);
  }

  /** Where the transcript comes from: the fetched fragment texts, or the failure's message. */
  datatype Fetch = Fragments(texts: seq<string>) | FetchFailed(reason: string)

  datatype Outcome<T> = Done(value: T) | Raised(message: string)

  /** `get_transcript`: the first attempt, then the English-language retry. */
  function GetTranscript(first: Fetch, retry: Fetch): (r: Outcome<string>)
    ensures first.Fragments? ==> r == Done(CleanTranscript(first.texts))
    ensures first.FetchFailed? && retry.Fragments? ==> r == Done(CleanTranscript(retry.texts))
    ensures r.Raised? <==> first.FetchFailed? && retry.FetchFailed?
    ensures r.Raised? ==> r.message == "Could not fetch transcript: " + retry.reason
  {
    if first.Fragments? then Done(CleanTranscript(first.texts))
    else if retry.Fragments? then Done(CleanTranscript(retry.texts))
    else Raised("Could not fetch transcript: " + retry.reason)
  }

  // ---------------------------------------------------------------- /process_video

  const MinTranscriptLength := 50

  /** What the model call produced, kept as opaque JSON text. */
  datatype AiContent = AiContent(summary: string, questions: string)

  datatype ProcessReply =
    | Failure(status: int, error: string)
    | Processed(videoId: string, transcript: string, summary: string, questions: string, transcriptLength: nat)

  const UrlRequired := "video_url is required"
  const TooShort := "Transcript too short or unavailable"

  /** `/process_video`. `first` and `retry` are what the two transcript fetches return for the
      extracted ID; `generate` is the model call on the transcript. */
  function ProcessVideo(body: Body, first: string -> Fetch, retry: string -> Fetch,
                        generate: string -> Outcome<AiContent>): (r: ProcessReply)
    ensures !HasAll(body, ["video_url"]) ==> r == Failure(400, UrlRequired)
    ensures HasAll(body, ["video_url"]) && ExtractVideoId(Python, body.value["video_url"]).Invalid? ==>
              r == Failure(400, "Invalid video URL: " + InvalidMessage)
    ensures r.Processed? ==>
              HasAll(body, ["video_url"]) &&
              ExtractVideoId(Python, body.value["video_url"]) == Extracted(r.videoId) &&
              GetTranscript(first(r.videoId), retry(r.videoId)) == Done(r.transcript) &&
              r.transcriptLength == |r.transcript| >= MinTranscriptLength
    ensures r.Failure? ==> r.status == 400 || r.status == 500
    ensures HasAll(body, ["video_url"]) && ExtractVideoId(Python, body.value["video_url"]).Extracted? ==>
              var id := ExtractVideoId(Python, body.value["video_url"]).id;
              var t := GetTranscript(first(id), retry(id));
              (t.Raised? ==> r == Failure(500, t.message)) &&
              (t.Done? && |t.value| < MinTranscriptLength ==> r == Failure(400, TooShort)) &&
              (t.Done? && |t.value| >= MinTranscriptLength && generate(t.value).Raised? ==>
                 r == Failure(500, generate(t.value).message)) &&
              (t.Done? && |t.value| >= MinTranscriptLength && generate(t.value).Done? ==>
                 r == Processed(id, t.value, generate(t.value).value.summary,
                                generate(t.value).value.questions, |t.value|))
  {
    if !HasAll(body, ["video_url"]) then Failure(400, UrlRequired)
    else
      match ExtractVideoId(Python, body.value["video_url"])
      case Invalid(message) => Failure(400, "Invalid video URL: " + message)
      case Extracted(videoId) =>
        match GetTranscript(first(videoId), retry(videoId))
        case Raised(message) => Failure(500, message)
        case Done(transcript) =>
          if |transcript| < MinTranscriptLength then Failure(400, TooShort)
          else
            match generate(transcript)
            case Raised(message) => Failure(500, message)
            case Done(ai) => Processed(videoId, transcript, ai.summary, ai.questions, |transcript|)
  }

  /** A transcript under 50 characters is rejected before the model is ever asked: the reply
      is the same whatever the model would have said. */
  lemma ShortTranscriptSkipsModel(body: Body, first: string -> Fetch, retry: string -> Fetch,
                                  g1: string -> Outcome<AiContent>, g2: string -> Outcome<AiContent>)
    requires HasAll(body, ["video_url"])
    requires ExtractVideoId(Python, body.value["video_url"]).Extracted?
    requires var id := ExtractVideoId(Python, body.value["video_url"]).id;
             var t := GetTranscript(first(id), retry(id));
             t.Done? && |t.value| < MinTranscriptLength
    ensures ProcessVideo(body, first, retry, g1) == Failure(400, TooShort)
    ensures ProcessVideo(body, first, retry, g2) == Failure(400, TooShort)
  {
  }

  // ---------------------------------------------------------------- /search_transcript

  datatype SearchReply =
    | SearchFailure(status: int, error: string)
    | SearchResults(query: string, results: seq<SearchHit>, totalMatches: nat)

  const SearchFieldsRequired := "query and transcript are required"

  /** `/search_transcript` (identical in both Python services). */
  method SearchTranscriptRoute(body: Body) returns (r: SearchReply)
    ensures !HasAll(body, ["query", "transcript"]) <==> r == SearchFailure(400, SearchFieldsRequired)
    ensures HasAll(body, ["query", "transcript"]) ==> r.SearchResults?
    ensures r.SearchResults? ==>
      var query := body.value["query"];
      var transcript := body.value["transcript"];
      r.query == ToLower(query) &&
      r.results == TopResults(Ranked(WholeQuery, query, transcript)) &&
      r.totalMatches == |AllHits(WholeQuery, query, transcript)| &&
      |r.results| <= MaxResults && |r.results| <= r.totalMatches && Descending(r.results)
  {
    if !HasAll(body, ["query", "transcript"]) {
      return SearchFailure(400, SearchFieldsRequired);
    }
    var data := body.value;
    var results, total := TranscriptSearch.Search(WholeQuery, data["query"], data["transcript"]);
    r := SearchResults(ToLower(data["query"]), results, total);
  }
}
