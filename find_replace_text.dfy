/** The read-only half of findAndReplaceDOMText v0.4.3: option and preset
    merging, aggregation of a node tree into nested text runs, the search
    for a literal `find` string in each run, and the replacement strings
    built from a template. */
module FindReplaceText {
  import opened Js

  // ---------------------------------------------------------------------
  // Element classification and presets
  // ---------------------------------------------------------------------

  /** Elements that the "prose" preset excludes from the search. */
  const NonProseElements: set<string> := {
    "br", "hr",
    "script", "style", "img", "video", "audio", "canvas", "svg", "map", "object",
    "input", "textarea", "select", "option", "optgroup", "button"
  }

  /** Elements that do not take part in contiguous inline prose. */
  const NonContiguousProseElements: set<string> := {
    "address", "article", "aside", "blockquote", "dd", "div",
    "dl", "fieldset", "figcaption", "figure", "footer", "form", "h1", "h2", "h3",
    "h4", "h5", "h6", "header", "hgroup", "hr", "main", "nav", "noscript", "ol",
    "output", "p", "pre", "section", "ul",
    "br", "li", "summary", "dt", "details", "rp", "rt", "rtc",
    "script", "style", "img", "video", "audio", "canvas", "svg", "map", "object",
    "input", "textarea", "select", "option", "optgroup", "button",
    "table", "tbody", "thead", "th", "tr", "td", "caption", "col", "tfoot", "colgroup"
  }

  /** `isNonInlineProse`, on the element's node name. */
  predicate IsNonInlineProse(tag: string) {
    Lower(tag) in NonContiguousProseElements
  }

  /** The "prose" preset's element filter. */
  predicate ProseFilter(tag: string) {
    Lower(tag) !in NonProseElements
  }

  /** Every element the prose filter drops would also force a new context:
      the two tables agree. */
  lemma ProseTablesAgree(tag: string)
    ensures !ProseFilter(tag) ==> IsNonInlineProse(tag)
  {
  }

  /** `forceContext`: `true`, a predicate on elements, or anything else
      (which never forces a new context). */
  datatype ForceContext = ForceOff | ForceAll | ForceWhen(pred: string -> bool)

  /** The options object; `Some` marks an own property the caller set.
      Element callbacks see the element's node name. */
  datatype Options = Options(
    find: string,
    wrap: Option<string>,
    replace: Option<string>,
    filterElements: Option<string -> bool>,
    forceContext: Option<ForceContext>,
    portionMode: Option<string>,
    preset: Option<string>)

  const RetainMode := "retain"
  const FirstMode := "first"

  /** The constructor's preprocessing of the options: `portionMode`
      defaults to "retain", and the fields of the named preset are copied
      in where the caller set none. "prose" is the only preset. */
  function Configure(o: Options): (c: Options)
    ensures c.find == o.find && c.wrap == o.wrap && c.replace == o.replace && c.preset == o.preset
    ensures c.portionMode.Some? && c.portionMode.value != ""
    ensures o.portionMode.Some? && o.portionMode.value != "" ==> c.portionMode == o.portionMode
    ensures o.portionMode.None? || o.portionMode.value == "" ==> c.portionMode == Some("retain")
    ensures o.filterElements.Some? ==> c.filterElements == o.filterElements
    ensures o.forceContext.Some? ==> c.forceContext == o.forceContext
    ensures o.preset != Some("prose") ==>
      c.filterElements == o.filterElements && c.forceContext == o.forceContext
    ensures o.preset == Some("prose") ==> c.filterElements.Some? && c.forceContext.Some?
    ensures o.preset == Some("prose") && o.filterElements.None? ==>
      forall t :: c.filterElements.value(t) == ProseFilter(t)
    ensures o.preset == Some("prose") && o.forceContext.None? ==>
      c.forceContext == Some(ForceWhen(IsNonInlineProse))
  {
    var mode := if o.portionMode.None? || o.portionMode.value == "" then Some(RetainMode) else o.portionMode;
    var o1 := o.(portionMode := mode);
    if o.preset == Some("prose") then
      o1.(forceContext := if o.forceContext.Some? then o.forceContext else Some(ForceWhen(IsNonInlineProse)),
          filterElements := if o.filterElements.Some? then o.filterElements else Some(ProseFilter))
    else o1
  }

  /** The element filter rejects this element. */
  predicate Rejects(c: Options, tag: string) {
    c.filterElements.Some? && !c.filterElements.value(tag)
  }

  /** The element starts a new text context. */
  predicate Forced(c: Options, tag: string) {
    match c.forceContext
    case Some(ForceAll) => true
    case Some(ForceWhen(p)) => p(tag)
    case _ => false
  }

  // ---------------------------------------------------------------------
  // Escaping the literal pattern
  // ---------------------------------------------------------------------

  /** The characters `escapeRegExp` prefixes with a backslash. */
  const RegExpSpecials: set<char> := {
    '.', '*', '+', '?', '^', '=', '!', ':', '$', '{', '}', '(', ')', '|', '[', ']', '/', '\\'
  }

  function EscapeRegExp(s: string): (r: string)
    ensures |r| >= |s|
  {
    if s == [] then []
    else if s[0] in RegExpSpecials then ['\\', s[0]] + EscapeRegExp(s[1..])
    else [s[0]] + EscapeRegExp(s[1..])
  }

  /** Reads a pattern as literal text: a backslash takes the next character
      literally. */
  function Unescape(p: string): string {
    if p == [] then []
    else if p[0] == '\\' && |p| >= 2 then [p[1]] + Unescape(p[2..])
    else [p[0]] + Unescape(p[1..])
  }

  /** Every special character of the pattern stands escaped, so the regular
      expression built from it denotes a literal string. */
  predicate AllEscaped(p: string) {
    if p == [] then true
    else if p[0] == '\\' then |p| >= 2 && AllEscaped(p[2..])
    else p[0] !in RegExpSpecials && AllEscaped(p[1..])
  }

  /** The escaped pattern is literal and denotes exactly `s`. */
  lemma {:induction false} EscapeIsLiteral(s: string)
    ensures AllEscaped(EscapeRegExp(s))
    ensures Unescape(EscapeRegExp(s)) == s
  {
    if s != [] {
      EscapeIsLiteral(s[1..]);
      var e := EscapeRegExp(s[1..]);
      if s[0] in RegExpSpecials {
        assert EscapeRegExp(s) == ['\\', s[0]] + e;
        assert (['\\', s[0]] + e)[2..] == e;
      } else {
        assert EscapeRegExp(s) == [s[0]] + e;
        assert ([s[0]] + e)[1..] == e;
      }
    }
  }

  // ---------------------------------------------------------------------
  // Aggregation (getText)
  // ---------------------------------------------------------------------

  /** A DOM subtree: text nodes and elements (by node name). */
  datatype Node = Text(data: string) | Elem(tag: string, kids: seq<Node>)

  /** The nested aggregation: a string run, or a nested context. */
  datatype Run = Leaf(text: string) | Scope(runs: seq<Run>)

  /** `getText` of one node. */
  function Aggregate(n: Node, c: Options): seq<Run>
    decreases n, 0
  {
    match n
    case Text(d) => [Leaf(d)]
    case Elem(t, kids) => if Rejects(c, t) then [] else AggregateKids(kids, c, [Leaf("")])
  }

  /** The loop of `getText` over the children, from accumulator `acc`. */
  function AggregateKids(kids: seq<Node>, c: Options, acc: seq<Run>): seq<Run>
    requires |acc| > 0 && acc[|acc| - 1].Leaf?
    decreases kids, 2
  {
    if kids == [] then acc
    else AggregateKids(kids[1..], c, AggregateChild(acc, kids[0], c))
  }

  function AppendToLast(acc: seq<Run>, s: string): (r: seq<Run>)
    requires |acc| > 0 && acc[|acc| - 1].Leaf?
    ensures |r| == |acc| && r[|r| - 1].Leaf?
  {
    acc[|acc| - 1 := Leaf(acc[|acc| - 1].text + s)]
  }

  /** One iteration of that loop: a text child joins the current run; a
      forced-context element nests its own aggregation followed by a fresh
      run; any other element joins its first run to the current one and
      nests the rest. */
  function AggregateChild(acc: seq<Run>, child: Node, c: Options): (r: seq<Run>)
    requires |acc| > 0 && acc[|acc| - 1].Leaf?
    ensures |r| > 0 && r[|r| - 1].Leaf?
    decreases child, 1
  {
    match child
    case Text(d) => AppendToLast(acc, d)
    case Elem(t, _) =>
      var inner := Aggregate(child, c);
      if Forced(c, t) then acc + [Scope(inner), Leaf("")]
      else
        var joined := |inner| > 0 && inner[0].Leaf?;
        var acc' := if joined then AppendToLast(acc, inner[0].text) else acc;
        var rest := if joined then inner[1..] else inner;
        if |rest| > 0 then acc' + [Scope(rest), Leaf("")] else acc'
  }

  /** `getText`, as the recursive procedure with its child loop. */
  method GetText(n: Node, c: Options) returns (txt: seq<Run>)
    ensures txt == Aggregate(n, c)
    decreases n
  {
    if n.Text? {
      return [Leaf(n.data)];
    }
    if Rejects(c, n.tag) {
      return [];
    }
    txt := [Leaf("")];
    var i := 0;
    var k := 0;
    while k < |n.kids|
      invariant 0 <= k <= |n.kids|
      invariant i == |txt| - 1 && txt[i].Leaf?
      invariant AggregateKids(n.kids[k..], c, txt) == AggregateKids(n.kids, c, [Leaf("")])
    {
      assert n.kids[k..][1..] == n.kids[k + 1..];
      var child := n.kids[k];
      if child.Text? {
        txt := txt[i := Leaf(txt[i].text + child.data)];
      } else {
        var innerText := GetText(child, c);
        if Forced(c, child.tag) {
          txt := txt + [Scope(innerText), Leaf("")];
          i := i + 2;
        } else {
          if |innerText| > 0 && innerText[0].Leaf? {
            txt := txt[i := Leaf(txt[i].text + innerText[0].text)];
            innerText := innerText[1..];
          }
          if |innerText| > 0 {
            txt := txt + [Scope(innerText), Leaf("")];
            i := i + 2;
          }
        }
      }
      k := k + 1;
    }
  }

  /** Every string of the aggregation, depth first. */
  function Leaves(runs: seq<Run>): seq<string>
    decreases runs, 0
  {
    if runs == [] then [] else LeavesOf(runs[0]) + Leaves(runs[1..])
  }

  function LeavesOf(r: Run): seq<string>
    decreases r, 1
  {
    match r
    case Leaf(s) => [s]
    case Scope(rs) => Leaves(rs)
  }

  function Concat(ss: seq<string>): string {
    if ss == [] then "" else ss[0] + Concat(ss[1..])
  }

  /** The flattened text of the aggregation. */
  function Flatten(runs: seq<Run>): string {
    Concat(Leaves(runs))
  }

  /** Reference definition: the data of the text nodes that the walk of
      `processMatches` visits, in document order. Nothing below an element
      the filter rejects is visited. */
  function TextNodes(n: Node, c: Options): seq<string>
    decreases n, 0
  {
    match n
    case Text(d) => [d]
    case Elem(t, kids) => if Rejects(c, t) then [] else TextNodesKids(kids, c)
  }

  function TextNodesKids(kids: seq<Node>, c: Options): seq<string>
    decreases kids, 1
  {
    if kids == [] then [] else TextNodes(kids[0], c) + TextNodesKids(kids[1..], c)
  }

  lemma {:induction false} ConcatAppend(a: seq<string>, b: seq<string>)
    ensures Concat(a + b) == Concat(a) + Concat(b)
  {
    if a == [] {
      assert a + b == b;
    } else {
      assert (a + b)[0] == a[0] && (a + b)[1..] == a[1..] + b;
      ConcatAppend(a[1..], b);
    }
  }

  lemma {:induction false} LeavesAppend(a: seq<Run>, b: seq<Run>)
    ensures Leaves(a + b) == Leaves(a) + Leaves(b)
  {
    if a == [] {
      assert a + b == b;
    } else {
      assert (a + b)[0] == a[0] && (a + b)[1..] == a[1..] + b;
      LeavesAppend(a[1..], b);
    }
  }

  lemma FlattenAppend(a: seq<Run>, b: seq<Run>)
    ensures Flatten(a + b) == Flatten(a) + Flatten(b)
  {
    LeavesAppend(a, b);
    ConcatAppend(Leaves(a), Leaves(b));
  }

  lemma ConcatSingle(x: string)
    ensures Concat([x]) == x
  {
    assert [x][1..] == [];
  }

  lemma FlattenSingle(r: Run)
    ensures Flatten([r]) == Concat(LeavesOf(r))
    ensures r.Leaf? ==> Flatten([r]) == r.text
  {
    assert [r][1..] == [];
    assert Leaves([r]) == LeavesOf(r) + Leaves([]);
    assert LeavesOf(r) + [] == LeavesOf(r);
    if r.Leaf? {
      ConcatSingle(r.text);
    }
  }

  lemma FlattenAppendToLast(acc: seq<Run>, s: string)
    requires |acc| > 0 && acc[|acc| - 1].Leaf?
    ensures Flatten(AppendToLast(acc, s)) == Flatten(acc) + s
  {
    var n := |acc| - 1;
    var last := Leaf(acc[n].text + s);
    assert acc == acc[..n] + [acc[n]];
    assert AppendToLast(acc, s) == acc[..n] + [last];
    FlattenAppend(acc[..n], [acc[n]]);
    FlattenAppend(acc[..n], [last]);
    FlattenSingle(acc[n]);
    FlattenSingle(last);
  }

  /** A scope block appended after `acc` contributes its own text. */
  lemma ScopeBlockText(acc: seq<Run>, inner: seq<Run>)
    ensures Flatten(acc + [Scope(inner), Leaf("")]) == Flatten(acc) + Flatten(inner)
  {
    FlattenAppend(acc, [Scope(inner), Leaf("")]);
    FlattenAppend([Scope(inner)], [Leaf("")]);
    FlattenSingle(Scope(inner));
    FlattenSingle(Leaf(""));
  }

  /** Joining a leading text run onto the last run of `acc` keeps the text. */
  lemma JoinLeadingText(acc: seq<Run>, inner: seq<Run>)
    requires |acc| > 0 && acc[|acc| - 1].Leaf?
    requires |inner| > 0 && inner[0].Leaf?
    ensures Flatten(AppendToLast(acc, inner[0].text)) + Flatten(inner[1..]) == Flatten(acc) + Flatten(inner)
  {
    FlattenAppendToLast(acc, inner[0].text);
    assert inner == [inner[0]] + inner[1..];
    FlattenAppend([inner[0]], inner[1..]);
    FlattenSingle(inner[0]);
  }

  /** Aggregation contents: flattening the aggregation gives the data of
      every visited text node, in document order. */
  lemma {:induction false} AggregateText(n: Node, c: Options)
    ensures Flatten(Aggregate(n, c)) == Concat(TextNodes(n, c))
    decreases n, 0
  {
    match n
    case Text(d) =>
      FlattenSingle(Leaf(d));
      assert Concat([d]) == d;
    case Elem(t, kids) =>
      if !Rejects(c, t) {
        AggregateKidsText(kids, c, [Leaf("")]);
        FlattenSingle(Leaf(""));
      }
  }

  lemma {:induction false} AggregateKidsText(kids: seq<Node>, c: Options, acc: seq<Run>)
    requires |acc| > 0 && acc[|acc| - 1].Leaf?
    ensures Flatten(AggregateKids(kids, c, acc)) == Flatten(acc) + Concat(TextNodesKids(kids, c))
    decreases kids, 2
  {
    if kids != [] {
      AggregateChildText(acc, kids[0], c);
      AggregateKidsText(kids[1..], c, AggregateChild(acc, kids[0], c));
      ConcatAppend(TextNodes(kids[0], c), TextNodesKids(kids[1..], c));
    }
  }

  lemma {:induction false} AggregateChildText(acc: seq<Run>, child: Node, c: Options)
    requires |acc| > 0 && acc[|acc| - 1].Leaf?
    ensures Flatten(AggregateChild(acc, child, c)) == Flatten(acc) + Concat(TextNodes(child, c))
    decreases child, 1
  {
    match child
    case Text(d) =>
      FlattenAppendToLast(acc, d);
      assert Concat([d]) == d;
    case Elem(t, _) =>
      var inner := Aggregate(child, c);
      AggregateText(child, c);
      if Forced(c, t) {
        ScopeBlockText(acc, inner);
      } else {
        var joined := |inner| > 0 && inner[0].Leaf?;
        var acc' := if joined then AppendToLast(acc, inner[0].text) else acc;
        var rest := if joined then inner[1..] else inner;
        if joined {
          JoinLeadingText(acc, inner);
        }
        assert Flatten(acc') + Flatten(rest) == Flatten(acc) + Flatten(inner);
        if |rest| > 0 {
          ScopeBlockText(acc', rest);
        }
      }
  }

  /** Forced contexts: the strings of a forced-context element keep runs of
      their own, starting after every run before it and followed by a fresh
      empty run, so no search leaf mixes its text with its neighbours'. */
  lemma ForcedChildKeepsOwnLeaves(acc: seq<Run>, child: Node, c: Options)
    requires |acc| > 0 && acc[|acc| - 1].Leaf?
    requires child.Elem? && Forced(c, child.tag)
    ensures Leaves(AggregateChild(acc, child, c)) == Leaves(acc) + Leaves(Aggregate(child, c)) + [""]
  {
    var inner := Aggregate(child, c);
    LeavesAppend(acc, [Scope(inner), Leaf("")]);
    LeavesAppend([Scope(inner)], [Leaf("")]);
    assert Leaves([Scope(inner)]) == Leaves(inner) + Leaves([]);
    assert Leaves([Leaf("")]) == [""] + Leaves([]);
  }

  /** Inline elements do not break a run: the first run of a non-forced
      element continues the current leaf, and the runs before it are kept. */
  lemma InlineChildJoinsLeaf(acc: seq<Run>, child: Node, c: Options)
    requires |acc| > 0 && acc[|acc| - 1].Leaf?
    requires child.Elem? && !Forced(c, child.tag) && !Rejects(c, child.tag)
    ensures var inner := Aggregate(child, c);
      |inner| > 0 && inner[0].Leaf? &&
      var r := AggregateChild(acc, child, c);
      |r| >= |acc| && r[..|acc| - 1] == acc[..|acc| - 1] &&
      r[|acc| - 1] == Leaf(acc[|acc| - 1].text + inner[0].text)
  {
    AggregateKidsPrefix(child.kids, c, [Leaf("")]);
  }

  /** The child loop keeps every run before the current one, and the
      current one stays a string. */
  lemma {:induction false} AggregateKidsPrefix(kids: seq<Node>, c: Options, acc: seq<Run>)
    requires |acc| > 0 && acc[|acc| - 1].Leaf?
    ensures var r := AggregateKids(kids, c, acc);
      |r| >= |acc| && r[..|acc| - 1] == acc[..|acc| - 1] && r[|acc| - 1].Leaf?
    decreases kids
  {
    if kids != [] {
      var n := |acc| - 1;
      var a1 := AggregateChild(acc, kids[0], c);
      assert |a1| >= |acc| && a1[..n] == acc[..n] && a1[n].Leaf?;
      AggregateKidsPrefix(kids[1..], c, a1);
      var r := AggregateKids(kids[1..], c, a1);
      assert r[..n] == r[..|a1| - 1][..n];
      if |a1| - 1 > n {
        assert r[n] == r[..|a1| - 1][n];
      }
    }
  }

  // ---------------------------------------------------------------------
  // Search (search, prepMatch)
  // ---------------------------------------------------------------------

  /** A match after `prepMatch`: its number, aggregate offsets, the matched
      string and the run it was found in. */
  datatype Match = Match(index: nat, startIndex: nat, endIndex: nat, text: string, input: string)

  const ZeroLengthError := "findAndReplaceDOMText cannot handle zero-length matches"

  datatype SearchState = SearchState(matches: seq<Match>, offset: nat, matchIndex: nat)

  /** The global regular expression's successive `exec` results on one run:
      the leftmost occurrences, each search resuming where the previous
      match ended. */
  function LeafMatches(text: string, find: string, from: nat, offset: nat, idx: nat): seq<Match>
    requires find != ""
    decreases |text| - from
  {
    match IndexOf(text, find, from)
    case None => []
    case Some(p) =>
      [Match(idx, offset + p, offset + p + |find|, find, text)]
        + LeafMatches(text, find, p + |find|, offset, idx + 1)
  }

  /** `matchAggregation` over the runs in order; `offset` is shared by all
      runs and never reset. An empty `find` matches the empty string at the
      start of the first run, which `prepMatch` rejects. */
  function SearchLeaves(leaves: seq<string>, find: string, st: SearchState): Result<SearchState>
  {
    if leaves == [] then Ok(st)
    else if find == "" then Err(ZeroLengthError)
    else SearchLeaves(leaves[1..], find, SearchStep(st, leaves[0], find))
  }

  function SearchStep(st: SearchState, leaf: string, find: string): SearchState
    requires find != ""
  {
    var found := LeafMatches(leaf, find, 0, st.offset, st.matchIndex);
    SearchState(st.matches + found, st.offset + |leaf|, st.matchIndex + |found|)
  }

  /** `search`: the matches of `find` in the aggregation. */
  function Search(runs: seq<Run>, find: string): Result<seq<Match>> {
    match SearchLeaves(Leaves(runs), find, SearchState([], 0, 0))
    case Ok(st) => Ok(st.matches)
    case Err(e) => Err(e)
  }

  function Then(r: Result<SearchState>, b: seq<string>, find: string): Result<SearchState> {
    match r
    case Ok(st') => SearchLeaves(b, find, st')
    case Err(e) => Err(e)
  }

  lemma {:induction false} SearchLeavesAppend(a: seq<string>, b: seq<string>, find: string, st: SearchState)
    ensures SearchLeaves(a + b, find, st) == Then(SearchLeaves(a, find, st), b, find)
  {
    if a == [] {
      assert a + b == b;
    } else {
      assert (a + b)[1..] == a[1..] + b;
      if find != "" {
        SearchLeavesAppend(a[1..], b, find, SearchStep(st, a[0], find));
      }
    }
  }

  /** The empty pattern occurs at the start of every string. */
  lemma EmptyFindMatches(text: string)
    ensures IndexOf(text, "", 0) == Some(0)
  {
  }

  lemma LeafMatchesNext(text: string, find: string, from: nat, offset: nat, idx: nat, p: nat)
    requires find != "" && IndexOf(text, find, from) == Some(p)
    ensures LeafMatches(text, find, from, offset, idx) ==
      [Match(idx, offset + p, offset + p + |find|, find, text)] + LeafMatches(text, find, p + |find|, offset, idx + 1)
  {
  }

  /** `LeafMatches` in the loop's own shape: the matches collected so far
      come first. */
  function ExecFrom(text: string, find: string, from: nat, offset: nat, acc: seq<Match>, idx: nat): seq<Match>
    requires find != ""
    decreases |text| - from
  {
    match IndexOf(text, find, from)
    case None => acc
    case Some(p) =>
      ExecFrom(text, find, p + |find|, offset, acc + [Match(idx, offset + p, offset + p + |find|, find, text)], idx + 1)
  }

  lemma {:induction false} ExecFromLeafMatches(text: string, find: string, from: nat, offset: nat, acc: seq<Match>, idx: nat)
    requires find != ""
    ensures ExecFrom(text, find, from, offset, acc, idx) == acc + LeafMatches(text, find, from, offset, idx)
    decreases |text| - from
  {
    match IndexOf(text, find, from)
    case None =>
      assert acc + [] == acc;
    case Some(p) =>
      var m := Match(idx, offset + p, offset + p + |find|, find, text);
      ExecFromLeafMatches(text, find, p + |find|, offset, acc + [m], idx + 1);
      AppendAssoc(acc, [m], LeafMatches(text, find, p + |find|, offset, idx + 1));
  }

  /** The `exec` loop of the global expression on one string. */
  method ExecAll(text: string, find: string, offset: nat, idx: nat) returns (r: Result<seq<Match>>)
    ensures find == "" ==> r == Err(ZeroLengthError)
    ensures find != "" ==> r == Ok(LeafMatches(text, find, 0, offset, idx))
  {
    var matches: seq<Match> := [];
    var matchIndex := idx;
    var lastIndex := 0;
    var m := IndexOf(text, find, lastIndex);
    if find == "" {
      EmptyFindMatches(text);
    }
    while m.Some?
      invariant lastIndex <= |text|
      invariant m == IndexOf(text, find, lastIndex)
      invariant find == "" ==> m.Some?
      invariant find != "" ==>
        ExecFrom(text, find, lastIndex, offset, matches, matchIndex) == ExecFrom(text, find, 0, offset, [], idx)
      decreases |text| - lastIndex
    {
      if find == "" {
        return Err(ZeroLengthError);
      }
      var p := m.value;
      matches := matches + [Match(matchIndex, offset + p, offset + p + |find|, find, text)];
      matchIndex := matchIndex + 1;
      lastIndex := p + |find|;
      m := IndexOf(text, find, lastIndex);
    }
    ExecFromLeafMatches(text, find, 0, offset, [], idx);
    assert [] + LeafMatches(text, find, 0, offset, idx) == LeafMatches(text, find, 0, offset, idx);
    r := Ok(matches);
  }

  /** `matchAggregation`, recursive over nested runs. */
  method MatchAggregation(runs: seq<Run>, find: string, st0: SearchState) returns (r: Result<SearchState>)
    ensures r == SearchLeaves(Leaves(runs), find, st0)
    decreases runs
  {
    var st := st0;
    var i := 0;
    while i < |runs|
      invariant 0 <= i <= |runs|
      invariant SearchLeaves(Leaves(runs), find, st0) == SearchLeaves(Leaves(runs[i..]), find, st)
    {
      assert runs[i..] == [runs[i]] + runs[i + 1..];
      LeavesAppend([runs[i]], runs[i + 1..]);
      assert Leaves([runs[i]]) == LeavesOf(runs[i]) + Leaves([]);
      SearchLeavesAppend(LeavesOf(runs[i]), Leaves(runs[i + 1..]), find, st);
      var run := runs[i];
      if run.Scope? {
        var sub := MatchAggregation(run.runs, find, st);
        if sub.Err? {
          return sub;
        }
        st := sub.value;
      } else {
        assert LeavesOf(run) == [run.text];
        var found := ExecAll(run.text, find, st.offset, st.matchIndex);
        if found.Err? {
          return Err(found.msg);
        }
        st := SearchState(st.matches + found.value, st.offset + |run.text|, st.matchIndex + |found.value|);
      }
      i := i + 1;
    }
    assert runs[i..] == [];
    r := Ok(st);
  }

  /** Zero-length rejection: the search fails exactly when `find` is empty
      and there is at least one run to search. */
  lemma {:induction false} ZeroLengthRejected(leaves: seq<string>, find: string, st: SearchState)
    ensures SearchLeaves(leaves, find, st).Err? <==> find == "" && leaves != []
  {
    if leaves != [] && find != "" {
      ZeroLengthRejected(leaves[1..], find, SearchStep(st, leaves[0], find));
    }
  }

  /** What each of one run's matches is: numbered consecutively from `idx`,
      a match of `find` found in that run, at or after `from`. */
  ghost predicate RunMatches(ms: seq<Match>, text: string, find: string, from: nat, offset: nat, idx: nat) {
    RunFields(ms, text, find, idx) && RunOccurs(ms, text, find, from, offset)
  }

  ghost predicate RunFields(ms: seq<Match>, text: string, find: string, idx: nat) {
    forall i :: 0 <= i < |ms| ==>
      ms[i].index == idx + i && ms[i].text == find && ms[i].input == text &&
      ms[i].endIndex == ms[i].startIndex + |find|
  }

  ghost predicate RunOccurs(ms: seq<Match>, text: string, find: string, from: nat, offset: nat) {
    forall i :: 0 <= i < |ms| ==>
      offset + from <= ms[i].startIndex && OccursAt(text, find, ms[i].startIndex - offset)
  }

  lemma {:induction false} LeafMatchesFields(text: string, find: string, from: nat, offset: nat, idx: nat)
    requires find != ""
    ensures RunFields(LeafMatches(text, find, from, offset, idx), text, find, idx)
    decreases |text| - from
  {
    var r := IndexOf(text, find, from);
    if r.Some? {
      var p := r.value;
      LeafMatchesNext(text, find, from, offset, idx, p);
      LeafMatchesFields(text, find, p + |find|, offset, idx + 1);
      var rest := LeafMatches(text, find, p + |find|, offset, idx + 1);
      var ms := [Match(idx, offset + p, offset + p + |find|, find, text)] + rest;
      forall i | 0 < i < |ms| ensures ms[i] == rest[i - 1] {}
    }
  }

  lemma {:induction false} LeafMatchesOccur(text: string, find: string, from: nat, offset: nat, idx: nat)
    requires find != ""
    ensures RunOccurs(LeafMatches(text, find, from, offset, idx), text, find, from, offset)
    decreases |text| - from
  {
    var r := IndexOf(text, find, from);
    if r.Some? {
      var p := r.value;
      LeafMatchesNext(text, find, from, offset, idx, p);
      LeafMatchesOccur(text, find, p + |find|, offset, idx + 1);
      RunOccursCons(Match(idx, offset + p, offset + p + |find|, find, text),
        LeafMatches(text, find, p + |find|, offset, idx + 1), text, find, from, p + |find|, offset);
    }
  }

  lemma RunOccursCons(first: Match, rest: seq<Match>, text: string, find: string, from: nat, next: nat, offset: nat)
    requires RunOccurs(rest, text, find, next, offset) && from <= next
    requires offset + from <= first.startIndex && OccursAt(text, find, first.startIndex - offset)
    ensures RunOccurs([first] + rest, text, find, from, offset)
  {
    var ms := [first] + rest;
    forall i | 0 <= i < |ms|
      ensures offset + from <= ms[i].startIndex && OccursAt(text, find, ms[i].startIndex - offset)
    {
      if i > 0 {
        assert ms[i] == rest[i - 1];
      }
    }
  }

  lemma LeafMatchesSound(text: string, find: string, from: nat, offset: nat, idx: nat)
    requires find != ""
    ensures RunMatches(LeafMatches(text, find, from, offset, idx), text, find, from, offset, idx)
  {
    LeafMatchesFields(text, find, from, offset, idx);
    LeafMatchesOccur(text, find, from, offset, idx);
  }

  /** One run's matches come in increasing order without overlap. */
  lemma {:induction false} LeafMatchesOrdered(text: string, find: string, from: nat, offset: nat, idx: nat)
    requires find != ""
    ensures Ordered(LeafMatches(text, find, from, offset, idx))
    decreases |text| - from
  {
    match IndexOf(text, find, from)
    case None =>
    case Some(p) =>
      var rest := LeafMatches(text, find, p + |find|, offset, idx + 1);
      LeafMatchesOrdered(text, find, p + |find|, offset, idx + 1);
      LeafMatchesSound(text, find, p + |find|, offset, idx + 1);
      var ms := LeafMatches(text, find, from, offset, idx);
      assert ms == [Match(idx, offset + p, offset + p + |find|, find, text)] + rest;
      forall i, j | 0 <= i < j < |ms| ensures ms[i].endIndex <= ms[j].startIndex {
        assert ms[j] == rest[j - 1];
        if i > 0 {
          assert ms[i] == rest[i - 1];
        } else {
          assert ms[i].endIndex == offset + p + |find|;
        }
      }
  }

  /** Every occurrence of `find` at or after `from` in a run lies inside
      one of that run's matches. */
  lemma {:induction false} LeafMatchesComplete(text: string, find: string, from: nat, offset: nat, idx: nat, q: nat)
    requires find != ""
    requires from <= q && OccursAt(text, find, q)
    ensures exists i :: 0 <= i < |LeafMatches(text, find, from, offset, idx)| &&
                        LeafMatches(text, find, from, offset, idx)[i].startIndex <= offset + q < LeafMatches(text, find, from, offset, idx)[i].endIndex
    decreases |text| - from
  {
    var ms := LeafMatches(text, find, from, offset, idx);
    IndexOfLeftmost(text, find, from);
    match IndexOf(text, find, from)
    case None =>
    case Some(p) =>
      var rest := LeafMatches(text, find, p + |find|, offset, idx + 1);
      assert ms == [Match(idx, offset + p, offset + p + |find|, find, text)] + rest;
      if q < p + |find| {
        IndexOfLeftmost(text, find, from);
        assert p <= q;
        assert ms[0].startIndex <= offset + q < ms[0].endIndex;
      } else {
        LeafMatchesComplete(text, find, p + |find|, offset, idx + 1, q);
        var i :| 0 <= i < |rest| && rest[i].startIndex <= offset + q < rest[i].endIndex;
        assert ms[i + 1] == rest[i];
      }
  }

  /** Start offset of leaf `k` in the flattened text. */
  function LeafStart(leaves: seq<string>, k: nat): nat
    requires k <= |leaves|
  {
    |Concat(leaves[..k])|
  }

  ghost predicate Numbered(ms: seq<Match>) {
    forall i :: 0 <= i < |ms| ==> ms[i].index == i
  }

  ghost predicate Occurrences(ms: seq<Match>, text: string, find: string) {
    forall i :: 0 <= i < |ms| ==>
      ms[i].text == find && ms[i].endIndex == ms[i].startIndex + |find| &&
      OccursAt(text, find, ms[i].startIndex)
  }

  ghost predicate Ordered(ms: seq<Match>) {
    forall i, j :: 0 <= i < j < |ms| ==> ms[i].endIndex <= ms[j].startIndex
  }

  /** Match `m` was found in leaf `k` and lies inside it. */
  ghost predicate InLeaf(m: Match, leaves: seq<string>, k: int) {
    0 <= k < |leaves| && m.input == leaves[k] &&
    LeafStart(leaves, k) <= m.startIndex && m.endIndex <= LeafStart(leaves, k) + |leaves[k]|
  }

  ghost predicate InSomeLeaf(m: Match, leaves: seq<string>) {
    exists k :: InLeaf(m, leaves, k)
  }

  ghost predicate WithinLeaves(ms: seq<Match>, leaves: seq<string>) {
    forall i :: 0 <= i < |ms| ==> InSomeLeaf(ms[i], leaves)
  }

  /** What the search guarantees of its matches after the leaves `prev`. */
  ghost predicate GoodMatches(ms: seq<Match>, prev: seq<string>, find: string) {
    Numbered(ms) && Occurrences(ms, Concat(prev), find) && Ordered(ms) && WithinLeaves(ms, prev)
  }

  lemma OccursAtExtend(s: string, t: string, pat: string, p: int)
    requires OccursAt(s, pat, p)
    ensures OccursAt(s + t, pat, p)
  {
    OccursAtSlice(s, pat, p);
    OccursAtSlice(s + t, pat, p);
    assert (s + t)[p..p + |pat|] == s[p..p + |pat|];
  }

  lemma OccursAtShift(s: string, t: string, pat: string, q: int)
    requires OccursAt(t, pat, q)
    ensures OccursAt(s + t, pat, |s| + q)
  {
    OccursAtSlice(t, pat, q);
    OccursAtSlice(s + t, pat, |s| + q);
    assert (s + t)[|s| + q..|s| + q + |pat|] == t[q..q + |pat|];
  }

  lemma NumberedStep(ms: seq<Match>, leaf: string, find: string, offset: nat)
    requires find != "" && Numbered(ms)
    ensures Numbered(ms + LeafMatches(leaf, find, 0, offset, |ms|))
  {
    LeafMatchesSound(leaf, find, 0, offset, |ms|);
    var all := ms + LeafMatches(leaf, find, 0, offset, |ms|);
    forall i | |ms| <= i < |all| ensures all[i].index == i {
      assert all[i] == LeafMatches(leaf, find, 0, offset, |ms|)[i - |ms|];
    }
  }

  lemma OccurrencesStep(ms: seq<Match>, text: string, leaf: string, find: string)
    requires find != "" && Occurrences(ms, text, find)
    ensures Occurrences(ms + LeafMatches(leaf, find, 0, |text|, |ms|), text + leaf, find)
  {
    var found := LeafMatches(leaf, find, 0, |text|, |ms|);
    LeafMatchesSound(leaf, find, 0, |text|, |ms|);
    var all := ms + found;
    forall i | 0 <= i < |all|
      ensures all[i].text == find && all[i].endIndex == all[i].startIndex + |find|
      ensures OccursAt(text + leaf, find, all[i].startIndex)
    {
      if i < |ms| {
        assert all[i] == ms[i];
        OccursAtExtend(text, leaf, find, ms[i].startIndex);
      } else {
        assert all[i] == found[i - |ms|];
        OccursAtShift(text, leaf, find, found[i - |ms|].startIndex - |text|);
      }
    }
  }

  lemma OrderedStep(ms: seq<Match>, text: string, leaf: string, find: string)
    requires find != "" && Ordered(ms) && Occurrences(ms, text, find)
    ensures Ordered(ms + LeafMatches(leaf, find, 0, |text|, |ms|))
  {
    var found := LeafMatches(leaf, find, 0, |text|, |ms|);
    LeafMatchesOrdered(leaf, find, 0, |text|, |ms|);
    LeafMatchesSound(leaf, find, 0, |text|, |ms|);
    var all := ms + found;
    forall i, j | 0 <= i < j < |all| ensures all[i].endIndex <= all[j].startIndex {
      if j < |ms| {
        assert all[i] == ms[i] && all[j] == ms[j];
      } else if i < |ms| {
        assert all[i] == ms[i] && all[j] == found[j - |ms|];
      } else {
        assert all[i] == found[i - |ms|] && all[j] == found[j - |ms|];
      }
    }
  }

  lemma InLeafExtend(m: Match, prev: seq<string>, leaf: string, k: int)
    requires InLeaf(m, prev, k)
    ensures InLeaf(m, prev + [leaf], k)
  {
    assert (prev + [leaf])[..k] == prev[..k];
  }

  lemma WithinLeavesStep(ms: seq<Match>, prev: seq<string>, leaf: string, find: string)
    requires find != "" && WithinLeaves(ms, prev)
    ensures WithinLeaves(ms + LeafMatches(leaf, find, 0, |Concat(prev)|, |ms|), prev + [leaf])
  {
    var offset := |Concat(prev)|;
    var found := LeafMatches(leaf, find, 0, offset, |ms|);
    LeafMatchesSound(leaf, find, 0, offset, |ms|);
    var all := prev + [leaf];
    var out := ms + found;
    assert all[..|prev|] == prev;
    forall i | 0 <= i < |out| ensures InSomeLeaf(out[i], all) {
      if i < |ms| {
        assert out[i] == ms[i];
        var k :| InLeaf(ms[i], prev, k);
        InLeafExtend(ms[i], prev, leaf, k);
      } else {
        assert out[i] == found[i - |ms|];
        assert InLeaf(out[i], all, |prev|);
      }
    }
  }

  lemma {:induction false} SearchLeavesGood(prev: seq<string>, leaves: seq<string>, find: string, st: SearchState)
    requires find != ""
    requires st.offset == |Concat(prev)| && st.matchIndex == |st.matches|
    requires GoodMatches(st.matches, prev, find)
    ensures SearchLeaves(leaves, find, st).Ok?
    ensures GoodMatches(SearchLeaves(leaves, find, st).value.matches, prev + leaves, find)
    decreases |leaves|
  {
    if leaves == [] {
      assert prev + leaves == prev;
    } else {
      var ms := st.matches;
      NumberedStep(ms, leaves[0], find, st.offset);
      OccurrencesStep(ms, Concat(prev), leaves[0], find);
      OrderedStep(ms, Concat(prev), leaves[0], find);
      WithinLeavesStep(ms, prev, leaves[0], find);
      ConcatAppend(prev, [leaves[0]]);
      assert Concat([leaves[0]]) == leaves[0];
      var st' := SearchStep(st, leaves[0], find);
      assert GoodMatches(st'.matches, prev + [leaves[0]], find);
      SearchLeavesGood(prev + [leaves[0]], leaves[1..], find, st');
      assert prev + [leaves[0]] + leaves[1..] == prev + leaves;
    }
  }

  /** Match offsets and order: for a non-empty `find`, the search succeeds;
      its matches are numbered 0, 1, 2, ...; each is an occurrence of
      `find` in the whole flattened text at its aggregate offsets; they are
      in increasing order without overlap; and each lies inside one run. */
  lemma SearchProps(runs: seq<Run>, find: string)
    requires find != ""
    ensures Search(runs, find).Ok?
    ensures GoodMatches(Search(runs, find).value, Leaves(runs), find)
  {
    SearchLeavesGood([], Leaves(runs), find, SearchState([], 0, 0));
    assert [] + Leaves(runs) == Leaves(runs);
  }

  /** The search only ever appends matches. */
  lemma {:induction false} SearchExtends(leaves: seq<string>, find: string, st: SearchState)
    requires find != ""
    ensures SearchLeaves(leaves, find, st).Ok?
    ensures st.matches <= SearchLeaves(leaves, find, st).value.matches
    decreases |leaves|
  {
    if leaves != [] {
      var st' := SearchStep(st, leaves[0], find);
      SearchExtends(leaves[1..], find, st');
      assert st.matches <= st'.matches;
    }
  }

  /** Completeness within a run: every occurrence of `find` in run `k`
      overlaps some match (the global expression only skips occurrences
      that overlap an earlier match). */
  lemma {:induction false} SearchComplete(leaves: seq<string>, find: string, st: SearchState, k: nat, q: nat)
    requires find != "" && k < |leaves|
    requires OccursAt(leaves[k], find, q)
    ensures SearchLeaves(leaves, find, st).Ok?
    ensures exists m :: m in SearchLeaves(leaves, find, st).value.matches &&
                        m.startIndex <= st.offset + LeafStart(leaves, k) + q < m.endIndex
    decreases k
  {
    var st' := SearchStep(st, leaves[0], find);
    var final := SearchLeaves(leaves, find, st);
    SearchExtends(leaves, find, st);
    if k == 0 {
      SearchExtends(leaves[1..], find, st');
      var found := LeafMatches(leaves[0], find, 0, st.offset, st.matchIndex);
      LeafMatchesComplete(leaves[0], find, 0, st.offset, st.matchIndex, q);
      var i :| 0 <= i < |found| && found[i].startIndex <= st.offset + q < found[i].endIndex;
      assert found[i] == st'.matches[|st.matches| + i];
      assert found[i] in final.value.matches;
      assert LeafStart(leaves, 0) == 0;
    } else {
      SearchComplete(leaves[1..], find, st', k - 1, q);
      assert leaves[..k] == [leaves[0]] + leaves[1..][..k - 1];
      ConcatAppend([leaves[0]], leaves[1..][..k - 1]);
      assert Concat([leaves[0]]) == leaves[0];
    }
  }

  /** Completeness for the whole aggregation. */
  lemma SearchFindsEveryOccurrence(runs: seq<Run>, find: string, k: nat, q: nat)
    requires find != "" && k < |Leaves(runs)|
    requires OccursAt(Leaves(runs)[k], find, q)
    ensures Search(runs, find).Ok?
    ensures exists m :: m in Search(runs, find).value &&
                        m.startIndex <= LeafStart(Leaves(runs), k) + q < m.endIndex
  {
    SearchComplete(Leaves(runs), find, SearchState([], 0, 0), k, q);
  }

  // ---------------------------------------------------------------------
  // Replacement strings (prepareReplacementString, getPortionReplacementNode)
  // ---------------------------------------------------------------------

  /** The part of a match inside one text node, identified by `node`;
      inner portions carry no `endIndexInNode`. */
  datatype Portion = Portion(
    node: nat, index: nat, text: string, indexInMatch: int,
    indexInNode: int, endIndexInNode: Option<int>, isEnd: bool)

  function DigitRun(s: string): (n: nat)
    ensures n <= |s|
    ensures forall i :: 0 <= i < n ==> IsDigit(s[i])
    ensures n < |s| ==> !IsDigit(s[n])
  {
    if s != [] && IsDigit(s[0]) then 1 + DigitRun(s[1..]) else 0
  }

  predicate AllZeros(s: string) {
    forall i :: 0 <= i < |s| ==> s[i] == '0'
  }

  /** `match[+t] || ''` for a run of digits `t`: a literal pattern has no
      capture groups, so only group 0 is defined. */
  function Group(m: Match, digits: string): string {
    if AllZeros(digits) then m.text else ""
  }

  /** The template substitution `string.replace(/\$(\d+|&|`|')/g, ...)`. */
  function Substitute(tpl: string, m: Match): string
    decreases |tpl|
  {
    if tpl == [] then []
    else if tpl[0] == '$' && |tpl| >= 2 && IsDigit(tpl[1]) then
      var n := DigitRun(tpl[1..]);
      Group(m, tpl[1..1 + n]) + Substitute(tpl[1 + n..], m)
    else if tpl[0] == '$' && |tpl| >= 2 && tpl[1] == '&' then m.text + Substitute(tpl[2..], m)
    else if tpl[0] == '$' && |tpl| >= 2 && tpl[1] == '`' then
      Substring(m.input, 0, m.startIndex) + Substitute(tpl[2..], m)
    else if tpl[0] == '$' && |tpl| >= 2 && tpl[1] == '\'' then
      SubstringFrom(m.input, m.endIndex) + Substitute(tpl[2..], m)
    else [tpl[0]] + Substitute(tpl[1..], m)
  }

  /** A template without `$` is inserted as it is. */
  lemma {:induction false} SubstitutePlain(tpl: string, m: Match)
    requires '$' !in tpl
    ensures Substitute(tpl, m) == tpl
    decreases |tpl|
  {
    if tpl != [] {
      assert tpl[0] != '$';
      assert '$' !in tpl[1..] by {
        forall i | 0 <= i < |tpl[1..]| ensures tpl[1..][i] != '$' {
          assert tpl[1..][i] == tpl[i + 1];
        }
      }
      SubstitutePlain(tpl[1..], m);
    }
  }

  /** The tokens: `$&` and `$0` give the whole match, `$1` (no such group)
      gives nothing, `` $` `` and `$'` slice the run at the match's
      aggregate offsets. */
  lemma SubstituteTokens(m: Match)
    ensures Substitute("$&", m) == m.text
    ensures Substitute("$0", m) == m.text
    ensures Substitute("$1", m) == ""
    ensures Substitute("$`", m) == Substring(m.input, 0, m.startIndex)
    ensures Substitute("$'", m) == SubstringFrom(m.input, m.endIndex)
  {
    SubstituteWhole(m);
    SubstituteNoGroup(m);
    SubstituteSides(m);
  }

  lemma SubstituteWhole(m: Match)
    ensures Substitute("$&", m) == m.text
    ensures Substitute("$0", m) == m.text
  {
    assert "$&"[2..] == [];
    assert DigitRun("0") == 1 by { assert "0"[1..] == []; }
    assert "$0"[1..2] == "0" && "$0"[2..] == [];
  }

  lemma SubstituteNoGroup(m: Match)
    ensures Substitute("$1", m) == ""
  {
    assert DigitRun("1") == 1 by { assert "1"[1..] == []; }
    assert "$1"[1..2] == "1" && "$1"[2..] == [];
  }

  lemma SubstituteSides(m: Match)
    ensures Substitute("$`", m) == Substring(m.input, 0, m.startIndex)
    ensures Substitute("$'", m) == SubstringFrom(m.input, m.endIndex)
  {
    assert "$`"[2..] == [];
    assert "$'"[2..] == [];
  }

  /** `prepareReplacementString`. */
  function PrepareReplacementString(tpl: string, portion: Portion, m: Match, mode: string): string {
    if mode == FirstMode && portion.indexInMatch > 0 then ""
    else
      var s := Substitute(tpl, m);
      if mode == FirstMode then s
      else if portion.isEnd then SubstringFrom(s, portion.indexInMatch)
      else Substring(s, portion.indexInMatch, portion.indexInMatch + |portion.text|)
  }

  /** In "first" mode only the portion at the start of the match receives
      the substituted text; in "retain" mode an end portion that starts the
      match receives all of it. */
  lemma PrepareModes(tpl: string, portion: Portion, m: Match, mode: string)
    ensures mode == FirstMode ==>
      PrepareReplacementString(tpl, portion, m, mode) ==
        if portion.indexInMatch > 0 then "" else Substitute(tpl, m)
    ensures mode != FirstMode && portion.isEnd && portion.indexInMatch <= 0 ==>
      PrepareReplacementString(tpl, portion, m, mode) == Substitute(tpl, m)
  {
  }

  /** In "retain" mode a start portion covering the first `|text|`
      characters and an end portion from there on together receive the
      whole substituted text. */
  lemma RetainPortionsReassemble(tpl: string, start: Portion, end: Portion, m: Match, mode: string)
    requires mode != FirstMode
    requires !start.isEnd && start.indexInMatch == 0
    requires end.isEnd && end.indexInMatch == |start.text|
    requires |start.text| <= |Substitute(tpl, m)|
    ensures PrepareReplacementString(tpl, start, m, mode) + PrepareReplacementString(tpl, end, m, mode)
      == Substitute(tpl, m)
  {
    var s := Substitute(tpl, m);
    assert s[..|start.text|] + s[|start.text|..] == s;
  }

  /** The node that replaces a portion: a bare text node, or the `wrap`
      element holding one. */
  datatype Replacement = BareText(text: string) | Wrapped(tag: string, text: string)

  /** The template in force: `replace || '$&'`. */
  function Template(c: Options): string {
    if c.replace.None? || c.replace.value == "" then "$&" else c.replace.value
  }

  /** `getPortionReplacementNode` for a template-string `replace` and a
      tag-name `wrap`. */
  function PortionReplacement(c: Options, portion: Portion, m: Match): (r: Replacement)
    ensures r.text == PrepareReplacementString(Template(c), portion, m, c.portionMode.GetOr(RetainMode))
    ensures r.text == "" ==> r.BareText?
    ensures r.Wrapped? <==> r.text != "" && c.wrap.Some?
    ensures r.Wrapped? ==> r.tag == c.wrap.value
  {
    var s := PrepareReplacementString(Template(c), portion, m, c.portionMode.GetOr(RetainMode));
    if s == "" then BareText("")
    else if c.wrap.None? then BareText(s)
    else Wrapped(c.wrap.value, s)
  }
}
