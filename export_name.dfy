/** The file name `exportDataAsJson` gives the downloaded JSON:
    `regulatory-requirements_<product>_<market>_<timestamp>.json`, where product and
    market have each whitespace run replaced by one dash and are lower-cased, and the
    ISO timestamp has its colons and dots replaced by dashes. */
module ExportName {
  import opened Strings

  const FilePrefix := "regulatory-requirements_"
  const FileSuffix := ".json"

  /** A set of characters given by its membership test, such as `\s`. */
  type CharClass = char -> bool

  predicate AllIn(w: string, cls: CharClass)
  {
    forall i :: 0 <= i < |w| ==> cls(w[i])
  }

  predicate NoneIn(s: string, cls: CharClass)
  {
    forall i :: 0 <= i < |s| ==> !cls(s[i])
  }

  predicate NoJsSpace(s: string)
  {
    NoneIn(s, IsJsSpace)
  }

  /** The first index at or after `a` whose character is not in `cls`. */
  function SkipRun(s: string, a: nat, cls: CharClass): (r: nat)
    requires a <= |s|
    ensures a <= r <= |s|
    ensures forall k :: a <= k < r ==> cls(s[k])
    ensures r == |s| || !cls(s[r])
    decreases |s| - a
  {
    if a == |s| || !cls(s[a]) then a else SkipRun(s, a + 1, cls)
  }

  /** `s.replace(/[...]+/g, '-')` for the class `cls`: every maximal run of its
      characters becomes a single dash. */
  function CollapseRuns(s: string, cls: CharClass): (r: string)
    ensures |r| <= |s|
    decreases |s|
  {
    if s == [] then []
    else if cls(s[0]) then "-" + CollapseRuns(s[SkipRun(s, 0, cls)..], cls)
    else [s[0]] + CollapseRuns(s[1..], cls)
  }

  /** When the dash is not in the class, no character of the class survives. */
  lemma {:induction false} CollapseRunsNoneIn(s: string, cls: CharClass)
    requires !cls('-')
    ensures NoneIn(CollapseRuns(s, cls), cls)
    decreases |s|
  {
    if s != [] {
      var rest := if cls(s[0]) then s[SkipRun(s, 0, cls)..] else s[1..];
      CollapseRunsNoneIn(rest, cls);
      var head := if cls(s[0]) then "-" else [s[0]];
      var r := CollapseRuns(rest, cls);
      assert CollapseRuns(s, cls) == head + r;
      forall i | 0 <= i < |head + r| ensures !cls((head + r)[i]) {
        if i > 0 {
          assert (head + r)[i] == r[i - 1];
        }
      }
    }
  }

  /** Text without characters of the class is left as it is. */
  lemma {:induction false} CollapseRunsIdentity(s: string, cls: CharClass)
    requires NoneIn(s, cls)
    ensures CollapseRuns(s, cls) == s
    decreases |s|
  {
    if s != [] {
      CollapseRunsIdentity(s[1..], cls);
    }
  }

  /** `s.replace(/\s+/g, '-')`. */
  function CollapseSpaces(s: string): (r: string)
    ensures |r| <= |s|
    ensures NoJsSpace(r)
    ensures NoJsSpace(s) ==> r == s
  {
    CollapseRunsNoneIn(s, IsJsSpace);
    if NoJsSpace(s) then CollapseRunsIdentity(s, IsJsSpace); CollapseRuns(s, IsJsSpace)
    else CollapseRuns(s, IsJsSpace)
  }

  /** The product or market part of the name: it holds no whitespace and is no
      longer than the text it comes from. */
  function Slug(s: string): (r: string)
    ensures NoJsSpace(r) && |r| <= |s|
  {
    var c := CollapseSpaces(s);
    LowerKeepsNoSpace(c);
    ToLower(c)
  }

  lemma {:induction false} LowerKeepsNoSpace(c: string)
    requires NoJsSpace(c)
    ensures NoJsSpace(ToLower(c))
  {
    forall i | 0 <= i < |c| ensures !IsJsSpace(LowerChar(c[i])) {
      assert !IsJsSpace(c[i]);
    }
  }

  /** `timestamp.replace(/[:.]/g, '-')`. */
  function DashTimestamp(t: string): (r: string)
    ensures |r| == |t|
    ensures forall i :: 0 <= i < |t| ==> r[i] != ':' && r[i] != '.'
    ensures forall i :: 0 <= i < |t| && t[i] != ':' && t[i] != '.' ==> r[i] == t[i]
    ensures forall i :: 0 <= i < |t| && (t[i] == ':' || t[i] == '.') ==> r[i] == '-'
  {
    if t == [] then []
    else [if t[0] == ':' || t[0] == '.' then '-' else t[0]] + DashTimestamp(t[1..])
  }

  /** The part of the name between its fixed prefix and its extension. */
  function NameBody(product: string, market: string, timestamp: string): string
  {
    Slug(product) + "_" + Slug(market) + "_" + DashTimestamp(timestamp)
  }

  /** The name always carries its prefix and its extension around the two slugs and
      the timestamp, which are joined by underscores. */
  function ExportFilename(product: string, market: string, timestamp: string): (r: string)
    ensures StartsWith(r, FilePrefix) && EndsWith(r, FileSuffix)
    ensures |r| == |FilePrefix| + |Slug(product)| + 1 + |Slug(market)| + 1 + |timestamp| + |FileSuffix|
  {
    ConcatEnds(FilePrefix, NameBody(product, market, timestamp), FileSuffix);
    FilePrefix + NameBody(product, market, timestamp) + FileSuffix
  }

  /** A string opening with the run `s[..k]` collapses to one dash before the rest. */
  lemma CollapseLeadingRun(s: string, k: nat, cls: CharClass)
    requires 0 < k <= |s|
    requires forall i :: 0 <= i < k ==> cls(s[i])
    requires k == |s| || !cls(s[k])
    ensures CollapseRuns(s, cls) == "-" + CollapseRuns(s[k..], cls)
  {
  }

  lemma CollapseRunThenText(w: string, y: string, cls: CharClass)
    requires w != [] && AllIn(w, cls)
    requires y == [] || !cls(y[0])
    ensures CollapseRuns(w + y, cls) == "-" + CollapseRuns(y, cls)
  {
    var s := w + y;
    forall i | 0 <= i < |w| ensures cls(s[i]) {
      assert s[i] == w[i];
    }
    if y != [] {
      assert s[|w|] == y[0];
    }
    CollapseLeadingRun(s, |w|, cls);
    assert s[|w|..] == y;
  }

  /** A run between two characters outside the class becomes exactly one dash,
      and the text on either side is collapsed on its own. */
  lemma {:induction false} CollapseSplit(x: string, w: string, y: string, cls: CharClass)
    requires x == [] || !cls(x[|x| - 1])
    requires w != [] && AllIn(w, cls)
    requires y == [] || !cls(y[0])
    ensures CollapseRuns(x + w + y, cls) == CollapseRuns(x, cls) + "-" + CollapseRuns(y, cls)
    decreases |x|
  {
    if x == [] {
      CollapseSplitEmpty(x, w, y, cls);
    } else if !cls(x[0]) {
      CollapseSplitWord(x, w, y, cls);
    } else {
      CollapseSplitRun(x, w, y, cls);
    }
  }

  lemma CollapseSplitEmpty(x: string, w: string, y: string, cls: CharClass)
    requires x == []
    requires w != [] && AllIn(w, cls)
    requires y == [] || !cls(y[0])
    ensures CollapseRuns(x + w + y, cls) == CollapseRuns(x, cls) + "-" + CollapseRuns(y, cls)
  {
    assert x + w + y == w + y;
    CollapseRunThenText(w, y, cls);
  }

  lemma {:induction false} CollapseSplitWord(x: string, w: string, y: string, cls: CharClass)
    requires x != [] && !cls(x[0]) && !cls(x[|x| - 1])
    requires w != [] && AllIn(w, cls)
    requires y == [] || !cls(y[0])
    ensures CollapseRuns(x + w + y, cls) == CollapseRuns(x, cls) + "-" + CollapseRuns(y, cls)
    decreases |x|, 0
  {
    var x' := x[1..];
    Regroup(x, 1, w, y);
    assert x[..1] == [x[0]];
    CollapseWordThenText(x[0], x', cls);
    CollapseWordThenText(x[0], x' + w + y, cls);
    CollapseSplit(x', w, y, cls);
    var a, b := CollapseRuns(x', cls), CollapseRuns(y, cls);
    assert [x[0]] + (a + "-" + b) == ([x[0]] + a) + "-" + b;
  }

  lemma CollapseWordThenText(c: char, y: string, cls: CharClass)
    requires !cls(c)
    ensures CollapseRuns([c] + y, cls) == [c] + CollapseRuns(y, cls)
  {
    assert ([c] + y)[1..] == y;
  }

  lemma {:induction false} CollapseSplitRun(x: string, w: string, y: string, cls: CharClass)
    requires x != [] && cls(x[0]) && !cls(x[|x| - 1])
    requires w != [] && AllIn(w, cls)
    requires y == [] || !cls(y[0])
    ensures CollapseRuns(x + w + y, cls) == CollapseRuns(x, cls) + "-" + CollapseRuns(y, cls)
    decreases |x|, 0
  {
    var k := SkipRun(x, 0, cls);
    var lead, t := x[..k], x[k..];
    Regroup(x, k, w, y);
    assert t[0] == x[k] && (t + w + y)[0] == t[0];
    assert t[|t| - 1] == x[|x| - 1];
    CollapseRunThenText(lead, t, cls);
    CollapseRunThenText(lead, t + w + y, cls);
    CollapseSplit(t, w, y, cls);
    DashRegroup(CollapseRuns(t, cls), CollapseRuns(y, cls));
  }

  lemma DashRegroup(a: string, b: string)
    ensures "-" + (a + "-" + b) == ("-" + a) + "-" + b
  {
  }

  lemma Regroup(x: string, k: nat, w: string, y: string)
    requires k <= |x|
    ensures x == x[..k] + x[k..]
    ensures x + w + y == x[..k] + (x[k..] + w + y)
  {
    assert x == x[..k] + x[k..];
  }

  /** For whitespace: a run between two non-whitespace neighbours becomes one dash. */
  lemma CollapseSpacesSplit(x: string, w: string, y: string)
    requires x == [] || !IsJsSpace(x[|x| - 1])
    requires w != [] && AllIn(w, IsJsSpace)
    requires y == [] || !IsJsSpace(y[0])
    ensures CollapseSpaces(x + w + y) == CollapseSpaces(x) + "-" + CollapseSpaces(y)
  {
    CollapseSplit(x, w, y, IsJsSpace);
  }

  lemma ConcatEnds(a: string, b: string, c: string)
    ensures StartsWith(a + b + c, a) && EndsWith(a + b + c, c)
  {
    var f := a + b + c;
    assert f[..|a|] == a;
    assert f[|f| - |c|..] == c;
  }

  lemma NoJsSpaceConcat(a: string, b: string)
    requires NoJsSpace(a) && NoJsSpace(b)
    ensures NoJsSpace(a + b)
  {
    forall i | 0 <= i < |a + b| ensures !IsJsSpace((a + b)[i]) {
      if i < |a| {
        assert (a + b)[i] == a[i];
      } else {
        assert (a + b)[i] == b[i - |a|];
      }
    }
  }

  lemma FixedPartsHaveNoSpace()
    ensures NoJsSpace(FilePrefix) && NoJsSpace(FileSuffix) && NoJsSpace("_")
  {
  }

  /** With a timestamp free of whitespace (as an ISO timestamp is), the whole name is. */
  lemma FilenameHasNoSpace(product: string, market: string, timestamp: string)
    requires NoJsSpace(timestamp)
    ensures NoJsSpace(ExportFilename(product, market, timestamp))
  {
    FixedPartsHaveNoSpace();
    var d := DashTimestamp(timestamp);
    assert NoJsSpace(d);
    NoJsSpaceConcat(Slug(product), "_");
    NoJsSpaceConcat(Slug(product) + "_", Slug(market));
    NoJsSpaceConcat(Slug(product) + "_" + Slug(market), "_");
    NoJsSpaceConcat(Slug(product) + "_" + Slug(market) + "_", d);
    var body := NameBody(product, market, timestamp);
    NoJsSpaceConcat(FilePrefix, body);
    NoJsSpaceConcat(FilePrefix + body, FileSuffix);
  }
}
