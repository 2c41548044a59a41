/** `clean_json_content`: cutting the JSON text out of a language-model reply.
    Three stages are tried in order: the text of a "```json" (or "```JSON") fence,
    the bracket-delimited text between the first and the last "```", and a scan
    from the first `{` that counts braces outside double-quoted strings and keeps
    the first balanced candidate that decodes. When all three fail the reply is
    returned unchanged. */
module JsonClean {
  import opened Optional
  import opened Strings
  import opened Models

  /** What pydantic makes of an object's `requirements` and `summary` members. */
  datatype Fields = Fields(requirements: seq<Requirement>, summary: string)

  /** A decoded JSON value, kept abstract: an object with its member names (and,
      when they validate, its two typed members), or any other value. */
  datatype JsonValue =
    | JsonObject(keys: set<string>, typed: Option<Fields>)
    | JsonNonObject

  /** The outcome of Python's `json.loads`: a value, or a `JSONDecodeError` with its message. */
  datatype Decode = Decoded(value: JsonValue) | DecodeError(message: string)

  /** `json.loads`, left uninterpreted. */
  type Loads = string -> Decode

  predicate IsValidJson(loads: Loads, s: string)
  {
    loads(s).Decoded?
  }

  const Fence := "```"
  const JsonFence := "```json"
  const UpperJsonFence := "```JSON"

  // ---------------------------------------------------------------------------
  // The brace scanner's state and its one-character step

  /** The scanner's three variables: `brace_count`, `in_string`, `escape_next`. */
  datatype Lexer = Lexer(depth: int, inString: bool, escapeNext: bool)

  const Start := Lexer(0, false, false)

  /** One pass of the loop body over character `c`, as far as the state goes. A brace
      moves the count only when the scanner was outside a string, and an escape is
      only ever pending inside one. */
  function Step(st: Lexer, c: char): (r: Lexer)
    ensures r.depth == st.depth + (if st.inString then 0 else if c == '{' then 1 else if c == '}' then -1 else 0)
    ensures r.escapeNext ==> r.inString
  {
    var inString := if c == '"' && !st.escapeNext then !st.inString else st.inString;
    if c == '\\' && inString && !st.escapeNext then Lexer(st.depth, inString, true)
    else if inString then Lexer(st.depth, true, false)
    else if c == '{' then Lexer(st.depth + 1, false, false)
    else if c == '}' then Lexer(st.depth - 1, false, false)
    else Lexer(st.depth, false, false)
  }

  /** The state after scanning all of `t` from `st`. */
  function Run(st: Lexer, t: string): Lexer
    decreases |t|
  {
    if t == [] then st else Step(Run(st, t[..|t| - 1]), t[|t| - 1])
  }

  /** The state when the scan that started at `open` reaches index `i`. */
  function LexAt(s: string, open: nat, i: nat): Lexer
    requires open <= i <= |s|
  {
    Run(Start, s[open..i])
  }

  lemma LexAtNext(s: string, open: nat, i: nat)
    requires open <= i < |s|
    ensures LexAt(s, open, i + 1) == Step(LexAt(s, open, i), s[i])
  {
    assert s[open..i + 1][..i - open] == s[open..i];
  }

  /** `s[i]` is a `}` outside any string at which the running brace count returns to zero. */
  predicate ClosesAt(s: string, open: nat, i: nat)
    requires open <= i < |s|
  {
    s[i] == '}' && !LexAt(s, open, i).inString && LexAt(s, open, i + 1).depth == 0
  }

  /** `s[open..i + 1]` is a candidate the scan returns: balanced, and it decodes. */
  predicate Candidate(s: string, open: nat, i: nat, loads: Loads)
    requires open <= i < |s|
  {
    ClosesAt(s, open, i) && IsValidJson(loads, s[open..i + 1])
  }

  /** The first candidate end at or after `i`. */
  function ScanFrom(s: string, open: nat, i: nat, loads: Loads): (r: Option<nat>)
    requires open <= i <= |s|
    ensures r.Some? ==> i <= r.value < |s| && Candidate(s, open, r.value, loads)
    ensures forall e :: i <= e < |s| && Candidate(s, open, e, loads) ==> r.Some? && r.value <= e
    decreases |s| - i
  {
    if i == |s| then None
    else if Candidate(s, open, i, loads) then Some(i)
    else ScanFrom(s, open, i + 1, loads)
  }

  // ---------------------------------------------------------------------------
  // The three stages

  predicate Bracketed(p: string)
  {
    (StartsWith(p, "{") && EndsWith(p, "}")) || (StartsWith(p, "[") && EndsWith(p, "]"))
  }

  /** The marker looked for first: "```json" is preferred over "```JSON". */
  function Marker(content: string): string
  {
    if Contains(content, JsonFence) then JsonFence else UpperJsonFence
  }

  /** The text of a "```json" or "```JSON" fence, when the next "```" comes after the
      marker: only a reply with one of the markers has one, and it is a slice of the
      reply that holds no "```". */
  function TaggedFence(content: string): (r: Option<string>)
    ensures r.Some? ==> Contains(content, JsonFence) || Contains(content, UpperJsonFence)
    ensures r.Some? ==> IsSliceOf(r.value, content) && !Contains(r.value, Fence)
  {
    if Contains(content, JsonFence) || Contains(content, UpperJsonFence) then
      var marker := Marker(content);
      var start := Find(content, marker, 0) + |marker|;
      var end := Find(content, Fence, start);
      if end > start then
        var p := Strip(content[start..end]);
        SliceOfSlice(content, start, end, p);
        NoFenceBeforeNext(content, start, end, p);
        Some(p)
      else None
    else None
  }

  /** The text between the first and the last "```", when it is bracket-delimited:
      a bracket-delimited slice of the reply. */
  function GenericFence(content: string): (r: Option<string>)
    requires Contains(content, Fence)
    ensures r.Some? ==> Bracketed(r.value) && IsSliceOf(r.value, content)
  {
    var start := Find(content, Fence, 0) + |Fence|;
    var end := RFind(content, Fence);
    if end > start then
      var p := Strip(content[start..end]);
      SliceOfSlice(content, start, end, p);
      if Bracketed(p) then Some(p) else None
    else None
  }

  function FenceStage(content: string): Option<string>
  {
    if Contains(content, Fence) then
      match TaggedFence(content)
      case Some(r) => Some(r)
      case None => GenericFence(content)
    else None
  }

  /** The brace scan from the first `{`: what it finds is a slice of the reply that decodes. */
  function ScanStage(content: string, loads: Loads): (r: Option<string>)
    ensures r.Some? ==> IsSliceOf(r.value, content) && IsValidJson(loads, r.value)
  {
    var open := Find(content, "{", 0);
    if open >= 0 then
      match ScanFrom(content, open, open, loads)
      case Some(e) => Some(content[open..e + 1])
      case None => None
    else None
  }

  /** What `clean_json_content` returns. */
  function CleanJson(content: string, loads: Loads): (r: string)
    ensures content == [] ==> r == []
  {
    if content == [] then []
    else match FenceStage(content)
      case Some(r) => r
      case None =>
        match ScanStage(content, loads)
        case Some(r) => r
        case None => content
  }

  // ---------------------------------------------------------------------------
  // The imperative scanner

  /** `clean_json_content` with its brace scan as the source's index loop. */
  method CleanJsonContent(content: string, loads: Loads) returns (r: string)
    ensures r == CleanJson(content, loads)
  {
    if content == [] {
      return [];
    }
    var fenced := FenceStage(content);
    if fenced.Some? {
      return fenced.value;
    }
    var open := Find(content, "{", 0);
    if open >= 0 {
      var depth, inString, escapeNext := 0, false, false;
      var i := open;
      while i < |content|
        invariant open <= i <= |content|
        invariant Lexer(depth, inString, escapeNext) == LexAt(content, open, i)
        invariant ScanFrom(content, open, i, loads) == ScanFrom(content, open, open, loads)
      {
        ghost var before := Lexer(depth, inString, escapeNext);
        LexAtNext(content, open, i);
        var c := content[i];
        if c == '"' && !escapeNext {
          inString := !inString;
        }
        if c == '\\' && inString && !escapeNext {
          escapeNext := true;
          i := i + 1;
          continue;
        }
        escapeNext := false;
        if !inString {
          if c == '{' {
            depth := depth + 1;
          } else if c == '}' {
            depth := depth - 1;
            if depth == 0 {
              var extracted := content[open..i + 1];
              if loads(extracted).Decoded? {
                assert Candidate(content, open, i, loads);
                return extracted;
              }
            }
          }
        }
        i := i + 1;
      }
    }
    return content;
  }

  // ---------------------------------------------------------------------------
  // Properties of the lexer

  lemma {:induction false} RunAppend(st: Lexer, a: string, b: string)
    ensures Run(st, a + b) == Run(Run(st, a), b)
    decreases |b|
  {
    if b == [] {
      assert a + b == a;
    } else {
      var b' := b[..|b| - 1];
      assert (a + b)[..|a + b| - 1] == a + b';
      RunAppend(st, a, b');
    }
  }

  /** The body of a double-quoted string: every `"` in it is escaped by a backslash. */
  predicate QuotedBody(t: string)
    decreases |t|
  {
    if t == [] then true
    else if t[0] == '\\' then |t| >= 2 && QuotedBody(t[2..])
    else t[0] != '"' && QuotedBody(t[1..])
  }

  /** Inside a string, a quoted body leaves the state, and in particular the brace count, as it was. */
  lemma {:induction false} QuotedBodyKeepsState(st: Lexer, t: string)
    requires st.inString && !st.escapeNext
    requires QuotedBody(t)
    ensures Run(st, t) == st
    decreases |t|
  {
    if t == [] {
    } else if t[0] == '\\' {
      assert t == [t[0], t[1]] + t[2..];
      RunAppend(st, [t[0], t[1]], t[2..]);
      assert [t[0], t[1]][..1] == [t[0]];
      assert Run(st, [t[0]]) == Lexer(st.depth, true, true);
      QuotedBodyKeepsState(st, t[2..]);
    } else {
      assert t == [t[0]] + t[1..];
      RunAppend(st, [t[0]], t[1..]);
      QuotedBodyKeepsState(st, t[1..]);
    }
  }

  /** A whole string literal, braces included, does not change the count outside strings. */
  lemma StringLiteralKeepsState(st: Lexer, t: string)
    requires !st.inString && !st.escapeNext
    requires QuotedBody(t)
    ensures Run(st, ['"'] + t + ['"']) == st
  {
    var inside := Lexer(st.depth, true, false);
    RunAppend(st, ['"'], t);
    assert Run(st, ['"']) == inside;
    QuotedBodyKeepsState(inside, t);
    assert Run(st, ['"'] + t) == inside;
  }

  function Count(t: string, c: char): nat
    decreases |t|
  {
    if t == [] then 0 else Count(t[..|t| - 1], c) + (if t[|t| - 1] == c then 1 else 0)
  }

  /** Outside strings, text without quotes moves the count by its `{` minus its `}`. */
  lemma {:induction false} UnquotedTextCountsBraces(st: Lexer, t: string)
    requires !st.inString && !st.escapeNext
    requires forall i :: 0 <= i < |t| ==> t[i] != '"'
    ensures Run(st, t) == Lexer(st.depth + Count(t, '{') - Count(t, '}'), false, false)
    decreases |t|
  {
    if t != [] {
      UnquotedTextCountsBraces(st, t[..|t| - 1]);
    }
  }

  /** The scanner only ever waits for an escaped character inside a string. */
  lemma {:induction false} EscapeOnlyInString(st: Lexer, t: string)
    requires st.escapeNext ==> st.inString
    ensures Run(st, t).escapeNext ==> Run(st, t).inString
    decreases |t|
  {
    if t != [] {
      EscapeOnlyInString(st, t[..|t| - 1]);
    }
  }

  // ---------------------------------------------------------------------------
  // Properties of CleanJson

  lemma SliceOfSlice(s: string, lo: nat, hi: nat, r: string)
    requires lo <= hi <= |s|
    requires IsSliceOf(r, s[lo..hi])
    ensures IsSliceOf(r, s)
  {
    var t := s[lo..hi];
    var a, b :| 0 <= a <= b <= |t| && r == t[a..b];
    assert forall j :: 0 <= j < b - a ==> t[a..b][j] == s[lo + a..lo + b][j];
    assert r == s[lo + a..lo + b];
  }

  /** No "```" starts inside `s[start..end]` when `end` is the first one at or after `start`,
      so no slice of that text contains one. */
  lemma NoFenceBeforeNext(s: string, start: nat, end: nat, r: string)
    requires start <= end <= |s| && end == Find(s, Fence, start)
    requires IsSliceOf(r, s[start..end])
    ensures !Contains(r, Fence)
  {
    var t := s[start..end];
    var a, b :| 0 <= a <= b <= |t| && r == t[a..b];
    if Contains(r, Fence) {
      var k := Find(r, Fence, 0);
      OccursInSlice(t, a, b, Fence, k);
      OccursInSlice(s, start, end, Fence, a + k);
      assert false;
    }
  }

  /** Every result is a contiguous slice of the reply: nothing is introduced. */
  lemma CleanIsSlice(content: string, loads: Loads)
    ensures IsSliceOf(CleanJson(content, loads), content)
  {
    if content == [] {
      assert CleanJson(content, loads) == content[0..0];
    } else if FenceStage(content).Some? || ScanStage(content, loads).Some? {
    } else {
      assert CleanJson(content, loads) == content[0..|content|];
    }
  }

  /** A "```json" fence wins, over "```JSON" too, when another "```" follows its marker:
      the result is the stripped text strictly between the two, and holds no "```". */
  lemma TaggedFenceResult(content: string, loads: Loads, start: nat, end: nat)
    requires Contains(content, JsonFence) || Contains(content, UpperJsonFence)
    requires start == Find(content, Marker(content), 0) + |Marker(content)|
    requires start <= |content| && end == Find(content, Fence, start) && end > start
    ensures Marker(content) == (if Contains(content, JsonFence) then JsonFence else UpperJsonFence)
    ensures CleanJson(content, loads) == Strip(content[start..end])
    ensures !Contains(CleanJson(content, loads), Fence)
  {
    var r := Strip(content[start..end]);
    assert TaggedFence(content) == Some(r);
    assert Contains(content, Fence) by {
      assert Find(content, Fence, 0) <= end;
    }
    assert FenceStage(content) == Some(r);
    NoFenceBeforeNext(content, start, end, r);
  }

  /** The generic fence is taken only for bracket-delimited text between the first and
      the last "```"; otherwise control falls through to the brace scan. */
  lemma GenericFenceResult(content: string, loads: Loads)
    requires content != [] && Contains(content, Fence) && TaggedFence(content).None?
    ensures var start := Find(content, Fence, 0) + |Fence|;
            var end := RFind(content, Fence);
            var p := if start <= end then Strip(content[start..end]) else [];
            if end > start && Bracketed(p) then CleanJson(content, loads) == p
            else CleanJson(content, loads) == (match ScanStage(content, loads)
                                               case Some(r) => r
                                               case None => content)
  {
    assert FenceStage(content) == GenericFence(content);
  }

  /** What the brace scan returns: the text from the first `{` to a `}` outside strings
      where the count returns to zero, which decodes, and is the first such candidate. */
  lemma ScanStageShape(content: string, loads: Loads)
    requires ScanStage(content, loads).Some?
    ensures var open := Find(content, "{", 0);
            && open >= 0 && content[open] == '{'
            && (forall k :: 0 <= k < open ==> content[k] != '{')
            && exists e :: && open <= e < |content|
                           && ScanStage(content, loads).value == content[open..e + 1]
                           && ClosesAt(content, open, e)
                           && IsValidJson(loads, ScanStage(content, loads).value)
                           && forall e' :: open <= e' < e ==> !Candidate(content, open, e', loads)
  {
    var open := Find(content, "{", 0);
    FindChar(content, '{');
    var e := ScanFrom(content, open, open, loads).value;
    assert ScanStage(content, loads).value == content[open..e + 1];
    assert Candidate(content, open, e, loads);
  }

  /** A result of the brace scan starts at the first `{`, ends at a `}` outside strings
      where the count returns to zero, decodes, and is the first such candidate. */
  lemma ScanResult(content: string, loads: Loads)
    requires content != [] && FenceStage(content).None? && ScanStage(content, loads).Some?
    ensures CleanJson(content, loads) == ScanStage(content, loads).value
    ensures var open := Find(content, "{", 0);
            && open >= 0 && content[open] == '{'
            && (forall k :: 0 <= k < open ==> content[k] != '{')
            && exists e :: && open <= e < |content|
                           && CleanJson(content, loads) == content[open..e + 1]
                           && ClosesAt(content, open, e)
                           && IsValidJson(loads, CleanJson(content, loads))
                           && forall e' :: open <= e' < e ==> !Candidate(content, open, e', loads)
  {
    ScanStageShape(content, loads);
  }

  /** When no stage succeeds the reply comes back unchanged. */
  lemma FallbackIsIdentity(content: string, loads: Loads)
    requires FenceStage(content).None? && ScanStage(content, loads).None?
    ensures CleanJson(content, loads) == content
  {
  }
}
