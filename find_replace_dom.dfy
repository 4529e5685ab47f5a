/** The mutating half of findAndReplaceDOMText v0.4.3: the document walk of
    `processMatches`, the splice of `replaceMatch`, and `revert`.

    The document is seen through the strip of text nodes that the walk
    visits, in document order. Each piece of the strip is a text node or a
    replacement node (a bare text node or a wrapper element holding one),
    with an identity. A splice replaces one piece by up to three, and a
    replacement node is never visited again, so neighbours in the strip are
    siblings in the tree. */
module FindReplaceDom {
  import opened Js
  import opened FindReplaceText

  /** A node of the strip: its identity, its text, and the tag of the
      wrapper element when it is one. */
  datatype Piece = Piece(id: nat, data: string, wrapper: Option<string>)

  function Texts(strip: seq<Piece>): (ts: seq<string>)
    ensures |ts| == |strip|
  {
    if strip == [] then [] else [strip[0].data] + Texts(strip[1..])
  }

  /** The text the document shows. */
  function Visible(strip: seq<Piece>): string {
    Concat(Texts(strip))
  }

  /** The strip of a subtree's text nodes before any change, with
      identities `from`, `from + 1`, ... */
  function Pieces(texts: seq<string>, from: nat): (strip: seq<Piece>)
    ensures |strip| == |texts|
    ensures forall i :: 0 <= i < |texts| ==> strip[i] == Piece(from + i, texts[i], None)
  {
    if texts == [] then [] else [Piece(from, texts[0], None)] + Pieces(texts[1..], from + 1)
  }

  predicate UniqueIds(strip: seq<Piece>) {
    forall i, j :: 0 <= i < j < |strip| ==> strip[i].id != strip[j].id
  }

  predicate IdsBelow(strip: seq<Piece>, n: nat) {
    forall i :: 0 <= i < |strip| ==> strip[i].id < n
  }

  /** The position of the piece with identity `id`. */
  function IndexOfId(strip: seq<Piece>, id: nat): (r: Option<nat>)
    ensures r.Some? ==> r.value < |strip| && strip[r.value].id == id
    ensures r.None? ==> forall i :: 0 <= i < |strip| ==> strip[i].id != id
  {
    if strip == [] then None
    else if strip[0].id == id then Some(0)
    else match IndexOfId(strip[1..], id)
      case None => None
      case Some(k) => Some(k + 1)
  }

  // ---------------------------------------------------------------------
  // The walk of processMatches
  // ---------------------------------------------------------------------

  /** What a single-node splice must undo: the text nodes it created before
      and after the replacement node, the replacement node, and the
      original text node. */
  datatype Undo = Undo(preceding: Option<nat>, replacement: nat, following: Option<nat>, original: Piece)

  /** The portions of the current match found so far, and the next
      portion index. */
  datatype Portions = Portions(start: Option<Portion>, inner: seq<Portion>, end: Option<Portion>, count: nat)

  const NoPortions := Portions(None, [], None, 0)

  /** The walk's variables between two steps: the document, the cursor
      (`pos` into the strip), `atIndex`, the portions found so far, the
      current match followed by the ones still queued, and the undo
      records. */
  datatype WalkState = WalkState(
    strip: seq<Piece>, nextId: nat, pos: nat, atIndex: int, found: Portions,
    pending: seq<Match>, reverts: seq<Undo>)

  /** The state in which `processMatches` begins. */
  function Begin(strip: seq<Piece>, nextId: nat, ms: seq<Match>, reverts: seq<Undo>): WalkState {
    WalkState(strip, nextId, 0, 0, NoPortions, ms, reverts)
  }

  ghost predicate NonEmptyMatches(ms: seq<Match>) {
    forall i :: 0 <= i < |ms| ==> ms[i].startIndex < ms[i].endIndex
  }

  /** The portion of match `m` in text node `n`, which begins at offset
      `a`: the end portion, a portion crossing the node, or the start
      portion. */
  function EndPortion(n: Piece, index: nat, m: Match, a: int): Portion {
    Portion(n.id, index, Substring(n.data, m.startIndex - a, m.endIndex - a),
            a - m.startIndex, m.startIndex - a, Some(m.endIndex - a), true)
  }

  function InnerPortion(n: Piece, index: nat, m: Match, a: int): Portion {
    Portion(n.id, index, n.data, a - m.startIndex, 0, None, false)
  }

  function StartPortion(n: Piece, index: nat, m: Match, a: int): Portion {
    Portion(n.id, index, Substring(n.data, m.startIndex - a, m.endIndex - a),
            0, m.startIndex - a, Some(m.endIndex - a), false)
  }

  /** The end check of a visit to text node `n` at offset `a`, or else the
      record of a node inside the match. */
  function CheckEnd(p: Portions, n: Piece, m: Match, a: int): Portions {
    if p.end.None? && |n.data| + a >= m.endIndex then
      p.(end := Some(EndPortion(n, p.count, m, a)), count := p.count + 1)
    else if p.start.Some? then
      p.(inner := p.inner + [InnerPortion(n, p.count, m, a)], count := p.count + 1)
    else p
  }

  /** The start check of a visit. */
  function CheckStart(p: Portions, n: Piece, m: Match, a: int): Portions {
    if p.start.None? && |n.data| + a > m.startIndex then
      p.(start := Some(StartPortion(n, p.count, m, a)), count := p.count + 1)
    else p
  }

  /** The portions after visiting text node `n` at offset `a`: once the end
      of the match is found, so is its start, and the end portion lies in
      `n`. */
  function VisitText(p: Portions, n: Piece, m: Match, a: int): (q: Portions)
    ensures p.end.None? && m.startIndex < m.endIndex && q.end.Some? ==>
      q.start.Some? && q.end.value.node == n.id && q.end.value.isEnd &&
      q.end.value.endIndexInNode == Some(m.endIndex - a) &&
      q.end.value.indexInMatch == a - m.startIndex
  {
    CheckStart(CheckEnd(p, n, m, a), n, m, a)
  }

  /** The visit of the text node under the cursor: its portions, then
      `atIndex` moves past the node. */
  function Visit(w: WalkState): (v: WalkState)
    requires w.pos < |w.strip| && w.pending != []
  {
    var n := w.strip[w.pos];
    w.(found := VisitText(w.found, n, w.pending[0], w.atIndex), atIndex := w.atIndex + |n.data|)
  }

  /** The strip after `replaceMatch`, the new identity counter, the position
      after the replacement node, and the undo record when one is kept. */
  datatype Splice = Splice(strip: seq<Piece>, nextId: nat, resume: nat, undo: Option<Undo>)

  /** `replaceMatch` with the end portion in the piece at `pos`. When start
      and end lie in one text node, that node is split into the text before
      the match (if any), the replacement node and the text after it (if
      any), and an undo record is kept. Otherwise only the end node is
      replaced, nothing is kept, and the start and inner nodes stay as they
      are. */
  function ReplaceMatch(strip: seq<Piece>, nextId: nat, pos: nat,
                        sp: Portion, ep: Portion, r: Replacement): Splice
    requires pos < |strip|
  {
    var node := strip[pos];
    var wrapper := if r.Wrapped? then Some(r.tag) else None;
    if sp.node == ep.node then
      var pre := if sp.indexInNode > 0
        then [Piece(nextId, Substring(node.data, 0, sp.indexInNode), None)] else [];
      var eIn := ep.endIndexInNode.GetOr(0);
      var post := if eIn < |node.data|
        then [Piece(nextId + 2, SubstringFrom(node.data, eIn), None)] else [];
      var undo := Undo(if sp.indexInNode > 0 then Some(nextId) else None, nextId + 1,
                       if eIn < |node.data| then Some(nextId + 2) else None, node);
      Splice(strip[..pos] + pre + [Piece(nextId + 1, r.text, wrapper)] + post + strip[pos + 1..],
             nextId + 3, pos + |pre| + 1, Some(undo))
    else
      Splice(strip[pos := Piece(nextId, r.text, wrapper)], nextId + 1, pos + 1, None)
  }

  /** How the walk obtains the node that replaces a portion of a match
      (`getPortionReplacementNode`). */
  type Maker = (Portion, Match) -> Replacement

  /** The maker for a template-string `replace` and a tag-name `wrap`. */
  function NodeMaker(c: Options): Maker {
    (p: Portion, m: Match) => PortionReplacement(c, p, m)
  }

  function UndoList(u: Option<Undo>): seq<Undo> {
    if u.Some? then [u.value] else []
  }

  /** The replacement step of the walk: splice, move `atIndex` back by the
      text after the match in the end node, clear the portions, take the
      next match, and resume after the replacement node. */
  function Replace(w: WalkState, mk: Maker): WalkState
    requires w.pos < |w.strip| && w.pending != [] && w.found.start.Some? && w.found.end.Some?
  {
    var ep := w.found.end.value;
    var s := ReplaceMatch(w.strip, w.nextId, w.pos, w.found.start.value, ep, mk(ep, w.pending[0]));
    WalkState(s.strip, s.nextId, s.resume,
              w.atIndex - (|w.strip[w.pos].data| - ep.endIndexInNode.GetOr(0)),
              NoPortions, w.pending[1..], w.reverts + UndoList(s.undo))
  }

  /** The walk: visit the next text node; after a replacement continue with
      the next match; stop when the matches or the document run out. */
  function Walk(w: WalkState, mk: Maker): WalkState
    requires w.pos <= |w.strip| && w.found.end.None? && NonEmptyMatches(w.pending)
    decreases |w.pending|, |w.strip| - w.pos, 1
  {
    if w.pending == [] || w.pos == |w.strip| then w else Advance(w, mk)
  }

  /** One visit of the walk, and the walk from there on: a replacement
      when the visit completes the match, otherwise the next node. */
  function Advance(w: WalkState, mk: Maker): WalkState
    requires w.pos < |w.strip| && w.found.end.None? && NonEmptyMatches(w.pending) && w.pending != []
    decreases |w.pending|, |w.strip| - w.pos, 0
  {
    var v := Visit(w);
    if v.found.start.Some? && v.found.end.Some? then
      var r := Replace(v, mk);
      assert NonEmptyMatches(r.pending) by {
        forall i | 0 <= i < |r.pending| ensures r.pending[i].startIndex < r.pending[i].endIndex {
          assert r.pending[i] == w.pending[i + 1];
        }
      }
      Walk(r, mk)
    else Walk(v.(pos := v.pos + 1), mk)
  }

  lemma NonEmptyTail(ms: seq<Match>)
    requires ms != [] && NonEmptyMatches(ms)
    ensures NonEmptyMatches(ms[1..])
  {
    forall i | 0 <= i < |ms[1..]| ensures ms[1..][i].startIndex < ms[1..][i].endIndex {
      assert ms[1..][i] == ms[i + 1];
    }
  }

  /** One step of the walk from a state with a match left and a node to
      visit. */
  lemma WalkUnfold(w: WalkState, mk: Maker)
    requires w.pos < |w.strip| && w.found.end.None? && NonEmptyMatches(w.pending) && w.pending != []
    ensures var v := Visit(w);
      if v.found.start.Some? && v.found.end.Some? then Walk(w, mk) == Walk(Replace(v, mk), mk)
      else Walk(w, mk) == Walk(v.(pos := v.pos + 1), mk)
  {
    var v := Visit(w);
    assert Walk(w, mk) == Advance(w, mk);
    if v.found.start.Some? && v.found.end.Some? {
      assert Advance(w, mk) == Walk(Replace(v, mk), mk);
    } else {
      assert Advance(w, mk) == Walk(v.(pos := v.pos + 1), mk);
    }
  }

  // ---------------------------------------------------------------------
  // revert
  // ---------------------------------------------------------------------

  /** One revert callback: drop the created text nodes that are still the
      replacement node's neighbours, then put the original node back in
      its place. A replacement node no longer in the strip leaves it as it
      is; in the browser, `replaceChild` on a node that has lost its
      parent throws instead, and that throw is not modelled. */
  function ApplyUndo(strip: seq<Piece>, u: Undo): seq<Piece> {
    match IndexOfId(strip, u.replacement)
    case None => strip
    case Some(i) =>
      var dropPre := u.preceding.Some? && i > 0 && strip[i - 1].id == u.preceding.value;
      var s1 := if dropPre then strip[..i - 1] + strip[i..] else strip;
      var j := if dropPre then i - 1 else i;
      var dropPost := u.following.Some? && j + 1 < |s1| && s1[j + 1].id == u.following.value;
      var s2 := if dropPost then s1[..j + 1] + s1[j + 2..] else s1;
      s2[j := u.original]
  }

  /** `revert`: the callbacks, last one first. */
  function RevertAll(strip: seq<Piece>, us: seq<Undo>): seq<Piece>
    decreases |us|
  {
    if us == [] then strip
    else RevertAll(ApplyUndo(strip, us[|us| - 1]), us[..|us| - 1])
  }

  // ---------------------------------------------------------------------
  // What the walk does to the document
  // ---------------------------------------------------------------------

  lemma {:induction false} TextsAppend(a: seq<Piece>, b: seq<Piece>)
    ensures Texts(a + b) == Texts(a) + Texts(b)
  {
    if a == [] {
      assert a + b == b;
    } else {
      assert (a + b)[0] == a[0] && (a + b)[1..] == a[1..] + b;
      TextsAppend(a[1..], b);
    }
  }

  lemma VisibleAppend(a: seq<Piece>, b: seq<Piece>)
    ensures Visible(a + b) == Visible(a) + Visible(b)
  {
    TextsAppend(a, b);
    ConcatAppend(Texts(a), Texts(b));
  }

  lemma VisibleSingle(p: Piece)
    ensures Texts([p]) == [p.data] && Visible([p]) == p.data
  {
    assert [p][1..] == [];
    ConcatSingle(p.data);
  }

  lemma VisibleSplit(strip: seq<Piece>, i: nat)
    requires i <= |strip|
    ensures Visible(strip) == Visible(strip[..i]) + Visible(strip[i..])
  {
    assert strip == strip[..i] + strip[i..];
    VisibleAppend(strip[..i], strip[i..]);
  }

  /** What is left of a text node's data after offset `k`, as the text
      node a splice creates for it. */
  function After(d: string, k: int): seq<string> {
    if 0 <= k < |d| then [d[k..]] else []
  }

  /** Reference definition: the text `t`, which begins at offset `base` of
      the whole text, with the span of each match (in order) replaced by
      its replacement text `sub`. */
  function Rewrite(t: string, base: int, ms: seq<Match>, sub: Match -> string): string
    decreases |ms|, 1
  {
    if ms == [] then t
    else
      var b := Bounds(|t|, base, ms[0]);
      t[..b.0] + sub(ms[0]) + RewriteRest(t[b.1..], base + b.1, ms, sub)
  }

  /** Where match `m` begins and ends in a text of length `n` that starts at
      offset `base`, clamped to the text, the end no earlier than the start. */
  function Bounds(n: nat, base: int, m: Match): (b: (nat, nat))
    ensures b.0 <= b.1 <= n
  {
    var s := Clamp(m.startIndex - base, n);
    var e := Clamp(m.endIndex - base, n);
    (s, if e < s then s else e)
  }

  /** The text after the first match, with the other matches replaced. */
  function RewriteRest(t: string, base: int, ms: seq<Match>, sub: Match -> string): string
    requires ms != []
    decreases |ms|, 0
  {
    Rewrite(t, base, ms[1..], sub)
  }

  /** The matches lie one after another, each inside a single text node of
      `texts`, whose first node begins at offset `base`. */
  ghost predicate Placed(ms: seq<Match>, texts: seq<string>, base: int)
    decreases |ms|, |texts|
  {
    if ms == [] then true
    else if texts == [] then false
    else
      var m := ms[0];
      var last := base + |texts[0]|;
      m.startIndex < m.endIndex &&
      if base <= m.startIndex && m.endIndex <= last then
        Placed(ms[1..], After(texts[0], m.endIndex - base) + texts[1..], m.endIndex)
      else
        last <= m.startIndex && Placed(ms, texts[1..], last)
  }

  lemma {:induction false} PlacedNonEmpty(ms: seq<Match>, texts: seq<string>, base: int)
    requires Placed(ms, texts, base)
    ensures NonEmptyMatches(ms)
    decreases |ms|, |texts|
  {
    if ms != [] {
      var m := ms[0];
      if base <= m.startIndex && m.endIndex <= base + |texts[0]| {
        PlacedNonEmpty(ms[1..], After(texts[0], m.endIndex - base) + texts[1..], m.endIndex);
        forall i | 0 <= i < |ms| ensures ms[i].startIndex < ms[i].endIndex {
          if i > 0 {
            assert ms[i] == ms[1..][i - 1];
          }
        }
      } else {
        PlacedNonEmpty(ms, texts[1..], base + |texts[0]|);
      }
    }
  }

  /** The first match either lies inside the first text, or starts after
      it ends. */
  lemma PlacedHead(ms: seq<Match>, d: string, texts: seq<string>, base: int)
    requires ms != [] && Placed(ms, [d] + texts, base)
    ensures ms[0].startIndex < ms[0].endIndex
    ensures base <= ms[0].startIndex && ms[0].endIndex <= base + |d| ==>
      Placed(ms[1..], After(d, ms[0].endIndex - base) + texts, ms[0].endIndex)
    ensures !(base <= ms[0].startIndex && ms[0].endIndex <= base + |d|) ==>
      base + |d| <= ms[0].startIndex && Placed(ms, texts, base + |d|)
  {
    assert ([d] + texts)[0] == d;
    assert ([d] + texts)[1..] == texts;
  }

  lemma SkipBounds(a: nat, n: nat, base: int, m: Match)
    requires base + a <= m.startIndex <= m.endIndex
    ensures var b := Bounds(n, base + a, m); Bounds(a + n, base, m) == (a + b.0, a + b.1)
  {
  }

  /** Text before the first match passes through unchanged. */
  lemma RewriteSkip(d: string, t: string, base: int, ms: seq<Match>, sub: Match -> string)
    requires ms != [] && base + |d| <= ms[0].startIndex <= ms[0].endIndex
    ensures Rewrite(d + t, base, ms, sub) == d + Rewrite(t, base + |d|, ms, sub)
  {
    var b := Bounds(|t|, base + |d|, ms[0]);
    SkipBounds(|d|, |t|, base, ms[0]);
    assert (d + t)[..|d| + b.0] == d + t[..b.0];
    assert (d + t)[|d| + b.1..] == t[b.1..];
    PrefixCat(d, t[..b.0], sub(ms[0]), RewriteRest(t[b.1..], base + |d| + b.1, ms, sub));
  }

  lemma PrefixCat<T>(d: seq<T>, a: seq<T>, x: seq<T>, y: seq<T>)
    ensures (d + a) + x + y == d + (a + x + y)
  {
  }

  /** A match inside the first text: the text before it, its replacement,
      then the rest. */
  lemma RewriteInside(d: string, t: string, base: int, ms: seq<Match>, sub: Match -> string)
    requires ms != [] && base <= ms[0].startIndex <= ms[0].endIndex <= base + |d|
    ensures Rewrite(d + t, base, ms, sub) ==
      d[..ms[0].startIndex - base] + sub(ms[0]) +
      Rewrite(d[ms[0].endIndex - base..] + t, ms[0].endIndex, ms[1..], sub)
  {
    TakeAppendLeft(d, t, ms[0].startIndex - base);
    DropAppendLeft(d, t, ms[0].endIndex - base);
  }

  /** The first check of a visit that finds the whole match in the node. */
  lemma VisitInside(w: WalkState)
    requires w.pos < |w.strip| && w.found == NoPortions && w.pending != []
    requires w.atIndex <= w.pending[0].startIndex < w.pending[0].endIndex <= w.atIndex + |w.strip[w.pos].data|
    ensures var n, m, a := w.strip[w.pos], w.pending[0], w.atIndex;
      Visit(w).found == Portions(Some(StartPortion(n, 1, m, a)), [], Some(EndPortion(n, 0, m, a)), 2)
  {
  }

  /** A visit to a node that ends before the match starts finds nothing. */
  lemma VisitBefore(w: WalkState)
    requires w.pos < |w.strip| && w.found == NoPortions && w.pending != []
    requires w.atIndex + |w.strip[w.pos].data| <= w.pending[0].startIndex < w.pending[0].endIndex
    ensures Visit(w).found == NoPortions
  {
  }

  /** Single-node splice: a match inside the text node under the cursor
      (beginning at `atIndex` or later) splits that node into the text
      before the match, when there is some, the node made for the match's
      end portion, and the text after the match, when there is some; the
      cursor resumes right after the replacement node, `atIndex` is the end
      of the match, and one undo record is kept. */
  lemma ReplaceInNode(w: WalkState, mk: Maker) returns (pre: seq<Piece>, nw: Piece, post: seq<Piece>)
    requires w.pos < |w.strip| && w.found == NoPortions && w.pending != []
    requires w.atIndex <= w.pending[0].startIndex < w.pending[0].endIndex <= w.atIndex + |w.strip[w.pos].data|
    ensures Visit(w).found.start.Some? && Visit(w).found.end.Some?
    ensures var m, d, a := w.pending[0], w.strip[w.pos].data, w.atIndex;
      pre == (if m.startIndex - a > 0 then [Piece(w.nextId, d[..m.startIndex - a], None)] else []) &&
      post == (if m.endIndex - a < |d| then [Piece(w.nextId + 2, d[m.endIndex - a..], None)] else []) &&
      nw.id == w.nextId + 1 && nw.data == mk(EndPortion(w.strip[w.pos], 0, m, a), m).text
    ensures var m, d, a := w.pending[0], w.strip[w.pos].data, w.atIndex;
      var r := Replace(Visit(w), mk);
      r.strip == w.strip[..w.pos] + pre + [nw] + post + w.strip[w.pos + 1..] &&
      r.nextId == w.nextId + 3 && r.pos == w.pos + |pre| + 1 && r.atIndex == m.endIndex &&
      r.found == NoPortions && r.pending == w.pending[1..] &&
      r.reverts == w.reverts + [Undo(if pre != [] then Some(w.nextId) else None, w.nextId + 1,
                                     if post != [] then Some(w.nextId + 2) else None, w.strip[w.pos])]
  {
    var n, m, a := w.strip[w.pos], w.pending[0], w.atIndex;
    var d := n.data;
    VisitInside(w);
    var rep := mk(EndPortion(n, 0, m, a), m);
    var k, e := m.startIndex - a, m.endIndex - a;
    pre := if k > 0 then [Piece(w.nextId, d[..k], None)] else [];
    nw := Piece(w.nextId + 1, rep.text, if rep.Wrapped? then Some(rep.tag) else None);
    post := if e < |d| then [Piece(w.nextId + 2, d[e..], None)] else [];
  }

  /** What the single-node splice leaves before the cursor. */
  lemma SpliceBefore(P: seq<Piece>, pre: seq<Piece>, nw: Piece, post: seq<Piece>, Q: seq<Piece>, d: string, k: nat)
    requires k <= |d| && Visible(pre) == d[..k]
    ensures Visible((P + pre + [nw] + post + Q)[..|P| + |pre| + 1]) == Visible(P) + d[..k] + nw.data
  {
    AppendAssoc(P + pre + [nw], post, Q);
    TakeAppendLeft(P + pre + [nw], post + Q, |P| + |pre| + 1);
    VisibleAppend(P + pre, [nw]);
    VisibleAppend(P, pre);
    VisibleSingle(nw);
  }

  /** What the single-node splice leaves from the cursor on. */
  lemma SpliceAfter(P: seq<Piece>, pre: seq<Piece>, nw: Piece, post: seq<Piece>, Q: seq<Piece>, d: string, e: nat)
    requires Texts(post) == After(d, e)
    ensures Texts((P + pre + [nw] + post + Q)[|P| + |pre| + 1..]) == After(d, e) + Texts(Q)
  {
    AppendAssoc(P + pre + [nw], post, Q);
    DropAppendLeft(P + pre + [nw], post + Q, |P| + |pre| + 1);
    TextsAppend(post, Q);
  }

  /** The text before and after a match in its node, as the pieces the
      splice makes for them. */
  lemma SplitPieces(d: string, k: int, e: int, i: nat, j: nat)
    requires 0 <= k <= e <= |d|
    ensures Visible(if k > 0 then [Piece(i, d[..k], None)] else []) == d[..k]
    ensures Texts(if e < |d| then [Piece(j, d[e..], None)] else []) == After(d, e)
  {
    if k > 0 {
      VisibleSingle(Piece(i, d[..k], None));
    }
    if e < |d| {
      VisibleSingle(Piece(j, d[e..], None));
    }
  }

  /** The text of the piece under the cursor, then the rest. */
  lemma HeadText(strip: seq<Piece>, pos: nat)
    requires pos < |strip|
    ensures Texts(strip[pos..]) == [strip[pos].data] + Texts(strip[pos + 1..])
    ensures Visible(strip[pos..]) == strip[pos].data + Visible(strip[pos + 1..])
  {
    assert strip[pos..] == [strip[pos]] + strip[pos + 1..];
    VisibleAppend([strip[pos]], strip[pos + 1..]);
    VisibleSingle(strip[pos]);
  }

  /** The maker gives the end portion that starts a match (or lies after
      its start) the text `sub` chooses for the match. */
  ghost predicate EndTexts(mk: Maker, sub: Match -> string) {
    forall p: Portion, m: Match :: p.isEnd && p.indexInMatch <= 0 ==> mk(p, m).text == sub(m)
  }

  /** A walk step that finds the whole match in the node under the cursor
      goes on from the state after the splice. */
  lemma StepInside(w: WalkState, mk: Maker) returns (r: WalkState)
    requires w.pos < |w.strip| && w.found == NoPortions && NonEmptyMatches(w.pending) && w.pending != []
    requires w.atIndex <= w.pending[0].startIndex && w.pending[0].endIndex <= w.atIndex + |w.strip[w.pos].data|
    ensures Visit(w).found.start.Some? && Visit(w).found.end.Some?
    ensures r == Replace(Visit(w), mk)
    ensures r.pos <= |r.strip| && r.found == NoPortions && r.pending == w.pending[1..]
    ensures r.atIndex == w.pending[0].endIndex && NonEmptyMatches(r.pending)
    ensures Walk(w, mk) == Walk(r, mk)
  {
    VisitInside(w);
    WalkUnfold(w, mk);
    r := Replace(Visit(w), mk);
    forall i | 0 <= i < |r.pending| ensures r.pending[i].startIndex < r.pending[i].endIndex {
      assert r.pending[i] == w.pending[i + 1];
    }
  }

  /** After the single-node splice, the document before the cursor shows
      the text before the match, then its replacement text. */
  lemma InsideBefore(w: WalkState, mk: Maker, sub: Match -> string)
    requires w.pos < |w.strip| && w.found == NoPortions && w.pending != []
    requires w.atIndex <= w.pending[0].startIndex < w.pending[0].endIndex <= w.atIndex + |w.strip[w.pos].data|
    requires EndTexts(mk, sub)
    ensures Visit(w).found.start.Some? && Visit(w).found.end.Some?
    ensures var r, m, d, a := Replace(Visit(w), mk), w.pending[0], w.strip[w.pos].data, w.atIndex;
      Visible(r.strip[..r.pos]) == Visible(w.strip[..w.pos]) + d[..m.startIndex - a] + sub(m)
  {
    var m, d, a := w.pending[0], w.strip[w.pos].data, w.atIndex;
    var pre, nw, post := ReplaceInNode(w, mk);
    assert EndPortion(w.strip[w.pos], 0, m, a).indexInMatch <= 0;
    SplitPieces(d, m.startIndex - a, m.endIndex - a, w.nextId, w.nextId + 2);
    SpliceBefore(w.strip[..w.pos], pre, nw, post, w.strip[w.pos + 1..], d, m.startIndex - a);
  }

  /** After the single-node splice, the document from the cursor on holds
      the text after the match, then the nodes after the old one. */
  lemma InsideAfter(w: WalkState, mk: Maker)
    requires w.pos < |w.strip| && w.found == NoPortions && w.pending != []
    requires w.atIndex <= w.pending[0].startIndex < w.pending[0].endIndex <= w.atIndex + |w.strip[w.pos].data|
    ensures Visit(w).found.start.Some? && Visit(w).found.end.Some?
    ensures var r, m, d, a := Replace(Visit(w), mk), w.pending[0], w.strip[w.pos].data, w.atIndex;
      Texts(r.strip[r.pos..]) == After(d, m.endIndex - a) + Texts(w.strip[w.pos + 1..])
    ensures var r, m, d, a := Replace(Visit(w), mk), w.pending[0], w.strip[w.pos].data, w.atIndex;
      Visible(r.strip[r.pos..]) == d[m.endIndex - a..] + Visible(w.strip[w.pos + 1..])
  {
    var m, d, a := w.pending[0], w.strip[w.pos].data, w.atIndex;
    var pre, nw, post := ReplaceInNode(w, mk);
    SplitPieces(d, m.startIndex - a, m.endIndex - a, w.nextId, w.nextId + 2);
    SpliceAfter(w.strip[..w.pos], pre, nw, post, w.strip[w.pos + 1..], d, m.endIndex - a);
    AfterVisible(d, m.endIndex - a, Texts(w.strip[w.pos + 1..]));
  }

  lemma AfterVisible(d: string, e: int, ts: seq<string>)
    requires 0 <= e <= |d|
    ensures Concat(After(d, e) + ts) == d[e..] + Concat(ts)
  {
    ConcatAppend(After(d, e), ts);
    if e < |d| {
      ConcatSingle(d[e..]);
    }
  }

  /** A walk step past a node that ends before the match starts. */
  lemma StepBefore(w: WalkState, mk: Maker) returns (u: WalkState)
    requires w.pos < |w.strip| && w.found == NoPortions && NonEmptyMatches(w.pending) && w.pending != []
    requires w.atIndex + |w.strip[w.pos].data| <= w.pending[0].startIndex
    ensures u == Skipped(w)
    ensures Walk(w, mk) == Walk(u, mk)
  {
    VisitBefore(w);
    WalkUnfold(w, mk);
    u := Visit(w).(pos := w.pos + 1);
  }

  lemma Regroup<T>(x: seq<T>, y: seq<T>, a: seq<T>, b: seq<T>, c: seq<T>, d: seq<T>, t: seq<T>)
    requires x == (a + b + c) + d && t == b + c + d && y == a + t
    ensures x == y
  {
  }

  /** The single-node splice, seen from the walk: the state the walk goes
      on from and the document it shows on either side of the cursor. */
  lemma InsideStep(w: WalkState, mk: Maker, sub: Match -> string) returns (r: WalkState)
    requires w.pos < |w.strip| && w.found == NoPortions && NonEmptyMatches(w.pending) && w.pending != []
    requires w.atIndex <= w.pending[0].startIndex && w.pending[0].endIndex <= w.atIndex + |w.strip[w.pos].data|
    requires EndTexts(mk, sub)
    ensures r.pos <= |r.strip| && r.found == NoPortions && r.pending == w.pending[1..]
    ensures r.atIndex == w.pending[0].endIndex && NonEmptyMatches(r.pending)
    ensures Walk(w, mk) == Walk(r, mk)
    ensures var m, d, a := w.pending[0], w.strip[w.pos].data, w.atIndex;
      Visible(r.strip[..r.pos]) == Visible(w.strip[..w.pos]) + d[..m.startIndex - a] + sub(m)
    ensures var m, d, a := w.pending[0], w.strip[w.pos].data, w.atIndex;
      Texts(r.strip[r.pos..]) == After(d, m.endIndex - a) + Texts(w.strip[w.pos + 1..])
    ensures var m, d, a := w.pending[0], w.strip[w.pos].data, w.atIndex;
      Visible(r.strip[r.pos..]) == d[m.endIndex - a..] + Visible(w.strip[w.pos + 1..])
  {
    r := StepInside(w, mk);
    InsideBefore(w, mk, sub);
    InsideAfter(w, mk);
  }

  /** A state of the walk from which every match left lies in one text
      node at or after the cursor. */
  ghost predicate InNodes(w: WalkState) {
    w.pos <= |w.strip| && w.found == NoPortions && NonEmptyMatches(w.pending) &&
    Placed(w.pending, Texts(w.strip[w.pos..]), w.atIndex)
  }

  /** What the document will show: the part before the cursor as it is,
      the rest with each match left replaced by its replacement text. */
  function Shown(w: WalkState, sub: Match -> string): string
    requires w.pos <= |w.strip|
  {
    Visible(w.strip[..w.pos]) + Rewrite(Visible(w.strip[w.pos..]), w.atIndex, w.pending, sub)
  }

  lemma ShownParts(w: WalkState, sub: Match -> string, before: string, after: string, base: int, ms: seq<Match>)
    requires w.pos <= |w.strip| && Visible(w.strip[..w.pos]) == before && Visible(w.strip[w.pos..]) == after
    requires w.atIndex == base && w.pending == ms
    ensures Shown(w, sub) == before + Rewrite(after, base, ms, sub)
  {
  }

  lemma InNodesParts(w: WalkState, texts: seq<string>)
    requires w.pos <= |w.strip| && w.found == NoPortions && NonEmptyMatches(w.pending)
    requires Texts(w.strip[w.pos..]) == texts && Placed(w.pending, texts, w.atIndex)
    ensures InNodes(w)
  {
  }

  /** After the single-node splice, the matches left still lie in single
      nodes from the cursor on. */
  lemma InsideInNodes(w: WalkState, r: WalkState)
    requires InNodes(w) && w.pos < |w.strip| && w.pending != []
    requires w.atIndex <= w.pending[0].startIndex && w.pending[0].endIndex <= w.atIndex + |w.strip[w.pos].data|
    requires r.pos <= |r.strip| && r.found == NoPortions && r.pending == w.pending[1..]
    requires r.atIndex == w.pending[0].endIndex && NonEmptyMatches(r.pending)
    requires Texts(r.strip[r.pos..]) ==
      After(w.strip[w.pos].data, w.pending[0].endIndex - w.atIndex) + Texts(w.strip[w.pos + 1..])
    ensures InNodes(r)
  {
    HeadText(w.strip, w.pos);
    PlacedHead(w.pending, w.strip[w.pos].data, Texts(w.strip[w.pos + 1..]), w.atIndex);
    InNodesParts(r, Texts(r.strip[r.pos..]));
  }

  /** The single-node splice keeps what the document will show. */
  lemma InsideShown(w: WalkState, r: WalkState, sub: Match -> string)
    requires w.pos < |w.strip| && w.pending != [] && r.pos <= |r.strip|
    requires w.atIndex <= w.pending[0].startIndex <= w.pending[0].endIndex <= w.atIndex + |w.strip[w.pos].data|
    requires r.pending == w.pending[1..] && r.atIndex == w.pending[0].endIndex
    requires var m, d, a := w.pending[0], w.strip[w.pos].data, w.atIndex;
      Visible(r.strip[..r.pos]) == Visible(w.strip[..w.pos]) + d[..m.startIndex - a] + sub(m)
    requires var m, d, a := w.pending[0], w.strip[w.pos].data, w.atIndex;
      Visible(r.strip[r.pos..]) == d[m.endIndex - a..] + Visible(w.strip[w.pos + 1..])
    ensures Shown(r, sub) == Shown(w, sub)
  {
    var m, a, d := w.pending[0], w.atIndex, w.strip[w.pos].data;
    var rest := Visible(w.strip[w.pos + 1..]);
    var k, e := m.startIndex - a, m.endIndex - a;
    var V0 := Visible(w.strip[..w.pos]);
    HeadText(w.strip, w.pos);
    ShownParts(r, sub, V0 + d[..k] + sub(m), d[e..] + rest, m.endIndex, w.pending[1..]);
    ShownParts(w, sub, V0, d + rest, a, w.pending);
    RewriteInside(d, rest, a, w.pending, sub);
    Regroup(Shown(r, sub), Shown(w, sub), V0, d[..k], sub(m),
            Rewrite(d[e..] + rest, m.endIndex, w.pending[1..], sub), Rewrite(d + rest, a, w.pending, sub));
  }

  /** The state after a visit to a node before the next match. */
  function Skipped(w: WalkState): WalkState
    requires w.pos < |w.strip|
  {
    w.(pos := w.pos + 1, atIndex := w.atIndex + |w.strip[w.pos].data|)
  }

  /** Passing a node before the next match: the matches left still lie in
      single nodes from the cursor on. */
  lemma BeforeInNodes(w: WalkState)
    requires InNodes(w) && w.pos < |w.strip| && w.pending != []
    requires !(w.atIndex <= w.pending[0].startIndex && w.pending[0].endIndex <= w.atIndex + |w.strip[w.pos].data|)
    ensures w.atIndex + |w.strip[w.pos].data| <= w.pending[0].startIndex
    ensures InNodes(Skipped(w))
  {
    HeadText(w.strip, w.pos);
    PlacedHead(w.pending, w.strip[w.pos].data, Texts(w.strip[w.pos + 1..]), w.atIndex);
    InNodesParts(Skipped(w), Texts(w.strip[w.pos + 1..]));
  }

  /** Passing a node before the next match keeps what the document will
      show. */
  lemma BeforeShown(w: WalkState, sub: Match -> string)
    requires w.pos < |w.strip| && w.pending != []
    requires w.atIndex + |w.strip[w.pos].data| <= w.pending[0].startIndex <= w.pending[0].endIndex
    ensures Shown(Skipped(w), sub) == Shown(w, sub)
  {
    var a, d := w.atIndex, w.strip[w.pos].data;
    var rest := Visible(w.strip[w.pos + 1..]);
    var V0 := Visible(w.strip[..w.pos]);
    HeadText(w.strip, w.pos);
    assert w.strip[..w.pos + 1] == w.strip[..w.pos] + [w.strip[w.pos]];
    VisibleAppend(w.strip[..w.pos], [w.strip[w.pos]]);
    VisibleSingle(w.strip[w.pos]);
    ShownParts(Skipped(w), sub, V0 + d, rest, a + |d|, w.pending);
    ShownParts(w, sub, V0, d + rest, a, w.pending);
    RewriteSkip(d, rest, a, w.pending, sub);
    AppendAssoc(V0, d, Rewrite(rest, a + |d|, w.pending, sub));
  }

  /** The walk, when every match lies inside one text node: the document
      ends up showing its text with each match replaced by its replacement
      text, and no match is left over. */
  lemma {:induction false} WalkRewrites(w: WalkState, mk: Maker, sub: Match -> string)
    requires InNodes(w) && EndTexts(mk, sub)
    ensures Walk(w, mk).pending == []
    ensures Visible(Walk(w, mk).strip) == Shown(w, sub)
    decreases |w.pending|, |w.strip| - w.pos
  {
    if w.pending == [] {
      VisibleSplit(w.strip, w.pos);
    } else {
      var m, a, d := w.pending[0], w.atIndex, w.strip[w.pos].data;
      if a <= m.startIndex && m.endIndex <= a + |d| {
        var r := InsideStep(w, mk, sub);
        InsideInNodes(w, r);
        InsideShown(w, r, sub);
        WalkRewrites(r, mk, sub);
      } else {
        BeforeInNodes(w);
        BeforeShown(w, sub);
        var u := StepBefore(w, mk);
        WalkRewrites(u, mk, sub);
      }
    }
  }

  /** The substituted template, for each match. */
  function Substitution(c: Options): Match -> string {
    (m: Match) => Substitute(Template(c), m)
  }

  /** With a template-string `replace`, in either portion mode, a document
      whose matches each lie in one text node ends up showing its text with
      every match replaced by the substituted template, and every match is
      used up. */
  lemma WalkRewritesTemplate(strip: seq<Piece>, nextId: nat, ms: seq<Match>, reverts: seq<Undo>, c: Options)
    requires Placed(ms, Texts(strip), 0)
    ensures NonEmptyMatches(ms)
    ensures Walk(Begin(strip, nextId, ms, reverts), NodeMaker(c)).pending == []
    ensures Visible(Walk(Begin(strip, nextId, ms, reverts), NodeMaker(c)).strip) ==
      Rewrite(Visible(strip), 0, ms, Substitution(c))
  {
    PlacedNonEmpty(ms, Texts(strip), 0);
    var w := Begin(strip, nextId, ms, reverts);
    assert strip[..0] == [] && strip[0..] == strip;
    forall p: Portion, m: Match | p.isEnd && p.indexInMatch <= 0
      ensures NodeMaker(c)(p, m).text == Substitution(c)(m)
    {
      PrepareModes(Template(c), p, m, c.portionMode.GetOr(RetainMode));
    }
    WalkRewrites(w, NodeMaker(c), Substitution(c));
    assert Visible([]) == "";
  }

  /** The matches come in order, and each spans, in `t` (which begins at
      offset `base` of the whole text), exactly the text it records. */
  ghost predicate SpansOwnText(t: string, base: int, ms: seq<Match>) {
    (forall i :: 0 <= i < |ms| ==>
      base <= ms[i].startIndex <= ms[i].endIndex <= base + |t| &&
      t[ms[i].startIndex - base..ms[i].endIndex - base] == ms[i].text) &&
    (forall i, j :: 0 <= i < j < |ms| ==> ms[i].endIndex <= ms[j].startIndex)
  }

  /** After the first match, the others span the rest of the text. */
  lemma SpansRest(t: string, base: int, ms: seq<Match>)
    requires SpansOwnText(t, base, ms) && ms != []
    ensures SpansOwnText(t[ms[0].endIndex - base..], ms[0].endIndex, ms[1..])
  {
    var e := ms[0].endIndex - base;
    var rest := ms[1..];
    forall i | 0 <= i < |rest|
      ensures e + base <= rest[i].startIndex <= rest[i].endIndex <= base + |t|
      ensures t[e..][rest[i].startIndex - (base + e)..rest[i].endIndex - (base + e)] == rest[i].text
    {
      assert rest[i] == ms[i + 1];
      assert t[e..][rest[i].startIndex - (base + e)..rest[i].endIndex - (base + e)]
          == t[rest[i].startIndex - base..rest[i].endIndex - base];
    }
    forall i, j | 0 <= i < j < |rest| ensures rest[i].endIndex <= rest[j].startIndex {
      assert rest[i] == ms[i + 1] && rest[j] == ms[j + 1];
    }
  }

  /** One step of `Rewrite` that puts the first match's own text back. */
  lemma RewriteKeepsFirst(t: string, base: int, ms: seq<Match>, sub: Match -> string)
    requires ms != []
    requires base <= ms[0].startIndex <= ms[0].endIndex <= base + |t|
    requires sub(ms[0]) == t[ms[0].startIndex - base..ms[0].endIndex - base]
    requires RewriteRest(t[ms[0].endIndex - base..], ms[0].endIndex, ms, sub) == t[ms[0].endIndex - base..]
    ensures Rewrite(t, base, ms, sub) == t
  {
    var s, e := ms[0].startIndex - base, ms[0].endIndex - base;
    assert Bounds(|t|, base, ms[0]) == (s, e);
    assert t[..s] + t[s..e] + t[e..] == t;
  }

  /** Replacing every match by the text it matched gives the text back. */
  lemma {:induction false} RewriteIdentity(t: string, base: int, ms: seq<Match>, sub: Match -> string)
    requires SpansOwnText(t, base, ms)
    requires forall i :: 0 <= i < |ms| ==> sub(ms[i]) == ms[i].text
    ensures Rewrite(t, base, ms, sub) == t
    decreases |ms|
  {
    if ms != [] {
      SpansRest(t, base, ms);
      forall i | 0 <= i < |ms[1..]| ensures sub(ms[1..][i]) == ms[1..][i].text {
        assert ms[1..][i] == ms[i + 1];
      }
      RewriteIdentity(t[ms[0].endIndex - base..], ms[0].endIndex, ms[1..], sub);
      RewriteKeepsFirst(t, base, ms, sub);
    }
  }

  /** The search's matches span the flattened text they were found in. */
  lemma SearchSpans(runs: seq<Run>, find: string)
    requires Search(runs, find).Ok?
    ensures SpansOwnText(Flatten(runs), 0, Search(runs, find).value)
  {
    var ms := Search(runs, find).value;
    if ms != [] {
      SearchNonEmpty(runs, find);
      SearchProps(runs, find);
      var t := Flatten(runs);
      forall i | 0 <= i < |ms|
        ensures 0 <= ms[i].startIndex <= ms[i].endIndex <= |t|
        ensures t[ms[i].startIndex..ms[i].endIndex] == ms[i].text
      {
        OccursAtSlice(t, find, ms[i].startIndex);
      }
    }
  }

  /** With the default template `$&`, every match is replaced by its own
      text, so the text is unchanged. */
  lemma DefaultTemplateKeepsText(t: string, ms: seq<Match>, c: Options)
    requires Template(c) == "$&" && SpansOwnText(t, 0, ms)
    ensures Rewrite(t, 0, ms, Substitution(c)) == t
  {
    forall i | 0 <= i < |ms| ensures Substitution(c)(ms[i]) == ms[i].text {
      SubstituteWhole(ms[i]);
    }
    RewriteIdentity(t, 0, ms, Substitution(c));
  }

  // ---------------------------------------------------------------------
  // What revert gives back
  // ---------------------------------------------------------------------

  /** The identities of the strip are distinct and all below `n`, the
      next identity to hand out. */
  ghost predicate FreshIds(strip: seq<Piece>, n: nat) {
    UniqueIds(strip) && IdsBelow(strip, n)
  }

  /** The first piece with identity `id` is the one at `i`. */
  lemma {:induction false} IndexOfIdAt(strip: seq<Piece>, id: nat, i: nat)
    requires i < |strip| && strip[i].id == id
    requires forall j :: 0 <= j < i ==> strip[j].id != id
    ensures IndexOfId(strip, id) == Some(i)
  {
    if i > 0 {
      IndexOfIdAt(strip[1..], id, i - 1);
    }
  }

  /** The pieces a single-node splice puts in place of a node: the text
      before the match with identity `n`, when there is some, the
      replacement node `n + 1`, and the text after it `n + 2`. */
  ghost predicate SpliceIds(pre: seq<Piece>, nw: Piece, post: seq<Piece>, n: nat) {
    (pre == [] || (|pre| == 1 && pre[0].id == n)) && nw.id == n + 1 &&
    (post == [] || (|post| == 1 && post[0].id == n + 2))
  }

  lemma DropOne<T>(s: seq<T>, A: seq<T>, x: seq<T>, B: seq<T>)
    requires s == A + x + B && |x| == 1
    ensures s[..|A|] + s[|A| + 1..] == A + B
  {
    assert s[..|A|] == A;
    assert s[|A| + 1..] == B;
  }

  /** `ApplyUndo` step by step: the replacement node found at `i`, the
      strip `s1` after dropping the node before it, the strip `s2` after
      dropping the one after it. */
  lemma ApplyUndoSteps(strip: seq<Piece>, u: Undo, i: nat, dropPre: bool, s1: seq<Piece>, j: nat,
                       dropPost: bool, s2: seq<Piece>)
    requires IndexOfId(strip, u.replacement) == Some(i)
    requires dropPre == (u.preceding.Some? && i > 0 && strip[i - 1].id == u.preceding.value)
    requires dropPre ==> i > 0 && s1 == strip[..i - 1] + strip[i..] && j == i - 1
    requires !dropPre ==> s1 == strip && j == i
    requires j + 1 <= |s1|
    requires dropPost == (u.following.Some? && j + 1 < |s1| && s1[j + 1].id == u.following.value)
    requires dropPost ==> j + 2 <= |s1| && s2 == s1[..j + 1] + s1[j + 2..]
    requires !dropPost ==> s2 == s1
    ensures ApplyUndo(strip, u) == s2[j := u.original]
  {
  }

  /** The replacement node is the first piece with its identity. */
  lemma SpliceFind(P: seq<Piece>, pre: seq<Piece>, nw: Piece, post: seq<Piece>, Q: seq<Piece>, n: nat)
    requires IdsBelow(P, n) && SpliceIds(pre, nw, post, n)
    ensures IndexOfId(P + pre + [nw] + post + Q, n + 1) == Some(|P| + |pre|)
  {
    var S := P + pre + [nw] + post + Q;
    var i := |P| + |pre|;
    assert S[i] == nw;
    forall j | 0 <= j < i ensures S[j].id != n + 1 {
      if j < |P| {
        assert S[j] == P[j];
      } else {
        assert S[j] == pre[0];
      }
    }
    IndexOfIdAt(S, n + 1, i);
  }

  lemma DropFirst<T>(P: seq<T>, x: seq<T>, b: T, c: seq<T>, Q: seq<T>)
    requires |x| <= 1
    ensures var S, R := P + x + [b] + c + Q, [b] + c + Q;
      (x != [] ==> S[|P|] == x[0] && S[..|P|] + S[|P| + 1..] == P + R) && (x == [] ==> S == P + R)
  {
    var R := [b] + c + Q;
    AppendAssoc(P, x, [b]);
    AppendAssoc(P + x + [b], c, Q);
    AppendAssoc(P + x, [b], c + Q);
    var S := P + x + [b] + c + Q;
    assert S == P + x + R;
    if x != [] {
      DropOne(S, P, x, R);
    }
  }

  lemma DropSecond<T>(P: seq<T>, b: T, y: seq<T>, Q: seq<T>)
    requires |y| <= 1
    ensures var s1, j := P + ([b] + y + Q), |P|;
      (y != [] ==> j + 2 <= |s1| && s1[j + 1] == y[0] && s1[..j + 1] + s1[j + 2..] == P + [b] + Q) &&
      (y == [] ==> s1 == P + [b] + Q)
  {
    var s1 := P + ([b] + y + Q);
    AppendAssoc(P, [b], y + Q);
    AppendAssoc(P + [b], y, Q);
    if y != [] {
      assert s1 == P + [b] + y + Q;
      DropOne(s1, P + [b], y, Q);
    }
  }

  /** The undo record of a single-node splice, applied to the strip right
      after it, puts the original node back in place of the three pieces. */
  lemma UndoSplice(P: seq<Piece>, pre: seq<Piece>, nw: Piece, post: seq<Piece>, Q: seq<Piece>, n: nat, orig: Piece)
    requires IdsBelow(P, n) && SpliceIds(pre, nw, post, n)
    ensures ApplyUndo(P + pre + [nw] + post + Q,
      Undo(if pre != [] then Some(n) else None, n + 1, if post != [] then Some(n + 2) else None, orig))
      == P + [orig] + Q
  {
    var S := P + pre + [nw] + post + Q;
    var u := Undo(if pre != [] then Some(n) else None, n + 1, if post != [] then Some(n + 2) else None, orig);
    SpliceFind(P, pre, nw, post, Q, n);
    DropFirst(P, pre, nw, post, Q);
    DropSecond(P, nw, post, Q);
    ApplyUndoSteps(S, u, |P| + |pre|, pre != [], P + ([nw] + post + Q), |P|, post != [], P + [nw] + Q);
    PutBack(P, nw, Q, orig);
  }

  lemma PutBack<T>(P: seq<T>, y: T, Q: seq<T>, o: T)
    ensures (P + [y] + Q)[|P| := o] == P + [o] + Q
  {
  }

  lemma {:induction false} UniqueInsert(P: seq<Piece>, M: seq<Piece>, Q: seq<Piece>, n: nat)
    requires UniqueIds(P + Q) && IdsBelow(P + Q, n)
    requires UniqueIds(M) && forall k :: 0 <= k < |M| ==> M[k].id >= n
    ensures UniqueIds(P + M + Q)
  {
    var T := P + M + Q;
    forall a, b | 0 <= a < b < |T| ensures T[a].id != T[b].id {
      if a < |P| {
        assert T[a] == (P + Q)[a];
        if b >= |P| + |M| {
          assert T[b] == (P + Q)[b - |M|];
        } else if b < |P| {
          assert T[b] == (P + Q)[b];
        } else {
          assert T[b] == M[b - |P|];
        }
      } else if a < |P| + |M| {
        assert T[a] == M[a - |P|];
        if b >= |P| + |M| {
          assert T[b] == (P + Q)[b - |M|];
        } else {
          assert T[b] == M[b - |P|];
        }
      } else {
        assert T[a] == (P + Q)[a - |M|] && T[b] == (P + Q)[b - |M|];
      }
    }
  }

  /** Taking one piece out of a strip with fresh identities keeps the rest
      distinct and below the counter. */
  lemma FreshRemove(P: seq<Piece>, x: Piece, Q: seq<Piece>, n: nat)
    requires FreshIds(P + [x] + Q, n)
    ensures UniqueIds(P + Q) && IdsBelow(P + Q, n)
  {
    var S := P + [x] + Q;
    forall a, b | 0 <= a < b < |P + Q| ensures (P + Q)[a].id != (P + Q)[b].id {
      var a' := if a < |P| then a else a + 1;
      var b' := if b < |P| then b else b + 1;
      assert (P + Q)[a] == S[a'] && (P + Q)[b] == S[b'];
    }
    forall k | 0 <= k < |P + Q| ensures (P + Q)[k].id < n {
      assert (P + Q)[k] == S[if k < |P| then k else k + 1];
    }
  }

  /** The pieces a single-node splice creates have distinct identities from
      `n` to `n + 2`. */
  lemma SpliceBlock(pre: seq<Piece>, nw: Piece, post: seq<Piece>, n: nat)
    requires SpliceIds(pre, nw, post, n)
    ensures var M := pre + [nw] + post;
      UniqueIds(M) && forall k :: 0 <= k < |M| ==> n <= M[k].id <= n + 2
  {
    var M := pre + [nw] + post;
    forall k | 0 <= k < |M| ensures n <= M[k].id <= n + 2 {
      if k < |pre| {
        assert M[k] == pre[0];
      } else if k == |pre| {
        assert M[k] == nw;
      } else {
        assert M[k] == post[0];
      }
    }
    forall a, b | 0 <= a < b < |M| ensures M[a].id != M[b].id {
      if a < |pre| {
        assert M[a] == pre[0];
      } else {
        assert M[a] == nw && M[b] == post[0];
      }
    }
  }

  /** Identities below `n` and a block with identities below `n + 3`
      inserted between `P` and `Q`: all below `n + 3`. */
  lemma InsertBelow(P: seq<Piece>, M: seq<Piece>, Q: seq<Piece>, n: nat)
    requires IdsBelow(P + Q, n) && forall k :: 0 <= k < |M| ==> M[k].id <= n + 2
    ensures IdsBelow(P + M + Q, n + 3)
  {
    var T := P + M + Q;
    forall k | 0 <= k < |T| ensures T[k].id < n + 3 {
      if k < |P| {
        assert T[k] == (P + Q)[k];
      } else if k >= |P| + |M| {
        assert T[k] == (P + Q)[k - |M|];
      } else {
        assert T[k] == M[k - |P|];
      }
    }
  }

  lemma SpliceFresh(P: seq<Piece>, x: Piece, Q: seq<Piece>, pre: seq<Piece>, nw: Piece, post: seq<Piece>, n: nat)
    requires FreshIds(P + [x] + Q, n) && SpliceIds(pre, nw, post, n)
    ensures FreshIds(P + pre + [nw] + post + Q, n + 3)
  {
    var M := pre + [nw] + post;
    FreshRemove(P, x, Q, n);
    SpliceBlock(pre, nw, post, n);
    UniqueInsert(P, M, Q, n);
    InsertBelow(P, M, Q, n);
    AppendAssoc(P + pre, [nw], post);
    AppendAssoc(P, pre + [nw], post);
    AppendAssoc(P, pre, [nw]);
    assert P + pre + [nw] + post + Q == P + M + Q;
  }

  /** Reverting the callbacks `rs + [u]` undoes `u` first. */
  lemma RevertLast(strip: seq<Piece>, rs: seq<Undo>, u: Undo)
    ensures RevertAll(strip, rs + [u]) == RevertAll(ApplyUndo(strip, u), rs)
  {
    assert (rs + [u])[..|rs|] == rs;
  }

  /** A single-node splice on a strip with fresh identities, followed by
      `revert`: the identities stay fresh, and the undo record gives back the
      strip before the splice. */
  lemma SpliceUndone(P: seq<Piece>, x: Piece, Q: seq<Piece>, pre: seq<Piece>, nw: Piece, post: seq<Piece>,
                     n: nat, rs: seq<Undo>)
    requires FreshIds(P + [x] + Q, n) && SpliceIds(pre, nw, post, n)
    ensures FreshIds(P + pre + [nw] + post + Q, n + 3)
    ensures RevertAll(P + pre + [nw] + post + Q,
      rs + [Undo(if pre != [] then Some(n) else None, n + 1, if post != [] then Some(n + 2) else None, x)])
      == RevertAll(P + [x] + Q, rs)
  {
    assert IdsBelow(P, n) by {
      forall k | 0 <= k < |P| ensures P[k].id < n {
        assert P[k] == (P + [x] + Q)[k];
      }
    }
    UndoSplice(P, pre, nw, post, Q, n, x);
    SpliceFresh(P, x, Q, pre, nw, post, n);
    RevertLast(P + pre + [nw] + post + Q, rs,
      Undo(if pre != [] then Some(n) else None, n + 1, if post != [] then Some(n + 2) else None, x));
  }

  /** The same, with the node at `pos` spliced. */
  lemma SpliceUndoneAt(strip: seq<Piece>, pos: nat, pre: seq<Piece>, nw: Piece, post: seq<Piece>, n: nat, rs: seq<Undo>)
    requires pos < |strip| && FreshIds(strip, n) && SpliceIds(pre, nw, post, n)
    ensures var s := strip[..pos] + pre + [nw] + post + strip[pos + 1..];
      FreshIds(s, n + 3) &&
      RevertAll(s, rs + [Undo(if pre != [] then Some(n) else None, n + 1,
                              if post != [] then Some(n + 2) else None, strip[pos])]) == RevertAll(strip, rs)
  {
    assert strip == strip[..pos] + [strip[pos]] + strip[pos + 1..];
    SpliceUndone(strip[..pos], strip[pos], strip[pos + 1..], pre, nw, post, n, rs);
  }

  /** The single-node splice, seen by `revert`. */
  lemma InsideUndo(w: WalkState, mk: Maker)
    requires w.pos < |w.strip| && w.found == NoPortions && w.pending != []
    requires w.atIndex <= w.pending[0].startIndex < w.pending[0].endIndex <= w.atIndex + |w.strip[w.pos].data|
    requires FreshIds(w.strip, w.nextId)
    ensures Visit(w).found.start.Some? && Visit(w).found.end.Some?
    ensures var r := Replace(Visit(w), mk);
      FreshIds(r.strip, r.nextId) && RevertAll(r.strip, r.reverts) == RevertAll(w.strip, w.reverts)
  {
    var pre, nw, post := ReplaceInNode(w, mk);
    SpliceUndoneAt(w.strip, w.pos, pre, nw, post, w.nextId, w.reverts);
  }

  /** The single-node splice, seen from the walk and by `revert`: the state
      the walk goes on from, the document from the cursor on, and what
      `revert` gives back. */
  lemma InsideRevertStep(w: WalkState, mk: Maker) returns (r: WalkState)
    requires w.pos < |w.strip| && w.found == NoPortions && NonEmptyMatches(w.pending) && w.pending != []
    requires w.atIndex <= w.pending[0].startIndex && w.pending[0].endIndex <= w.atIndex + |w.strip[w.pos].data|
    requires FreshIds(w.strip, w.nextId)
    ensures r.pos <= |r.strip| && r.found == NoPortions && r.pending == w.pending[1..]
    ensures r.atIndex == w.pending[0].endIndex && NonEmptyMatches(r.pending)
    ensures Walk(w, mk) == Walk(r, mk)
    ensures Texts(r.strip[r.pos..]) ==
      After(w.strip[w.pos].data, w.pending[0].endIndex - w.atIndex) + Texts(w.strip[w.pos + 1..])
    ensures FreshIds(r.strip, r.nextId)
    ensures RevertAll(r.strip, r.reverts) == RevertAll(w.strip, w.reverts)
  {
    r := StepInside(w, mk);
    InsideAfter(w, mk);
    InsideUndo(w, mk);
  }

  /** When every match lies inside one text node, `revert` after the walk
      gives back the document as it was before the walk. */
  lemma {:induction false} WalkReverts(w: WalkState, mk: Maker)
    requires InNodes(w) && FreshIds(w.strip, w.nextId)
    ensures RevertAll(Walk(w, mk).strip, Walk(w, mk).reverts) == RevertAll(w.strip, w.reverts)
    decreases |w.pending|, |w.strip| - w.pos
  {
    if w.pending != [] {
      var m, a, d := w.pending[0], w.atIndex, w.strip[w.pos].data;
      if a <= m.startIndex && m.endIndex <= a + |d| {
        var r := InsideRevertStep(w, mk);
        InsideInNodes(w, r);
        WalkReverts(r, mk);
      } else {
        BeforeInNodes(w);
        var u := StepBefore(w, mk);
        WalkReverts(u, mk);
      }
    }
  }

  /** A fresh document: its pieces have the identities `0 .. |texts| - 1`. */
  lemma PiecesFresh(texts: seq<string>)
    ensures FreshIds(Pieces(texts, 0), |texts|)
  {
  }

  lemma {:induction false} PiecesTexts(texts: seq<string>, from: nat)
    ensures Texts(Pieces(texts, from)) == texts
  {
    if texts != [] {
      var strip := Pieces(texts, from);
      assert strip[1..] == Pieces(texts[1..], from + 1);
      PiecesTexts(texts[1..], from + 1);
    }
  }

  /** Replacing matches that each lie in one text node of a fresh document
      and then calling `revert` gives back the document's text nodes. */
  lemma WalkRevertsDocument(texts: seq<string>, ms: seq<Match>, mk: Maker)
    requires Placed(ms, texts, 0)
    ensures NonEmptyMatches(ms)
    ensures var w := Walk(Begin(Pieces(texts, 0), |texts|, ms, []), mk);
      RevertAll(w.strip, w.reverts) == Pieces(texts, 0)
  {
    var strip := Pieces(texts, 0);
    PlacedNonEmpty(ms, texts, 0);
    PiecesTexts(texts, 0);
    assert strip[0..] == strip;
    PiecesFresh(texts);
    WalkReverts(Begin(strip, |texts|, ms, []), mk);
  }

  // ---------------------------------------------------------------------
  // Matches across text nodes
  // ---------------------------------------------------------------------

  /** A match whose start and end lie in different text nodes: only the end
      node is replaced, by the node made for the end portion; the start and
      inner nodes keep their whole text, no undo record is kept, and the
      document text is the text before the end node, the replacement text,
      and the text after it. */
  lemma MultiNodeSplice(strip: seq<Piece>, nextId: nat, pos: nat, sp: Portion, ep: Portion, r: Replacement)
    requires pos < |strip| && sp.node != ep.node
    ensures var s := ReplaceMatch(strip, nextId, pos, sp, ep, r);
      s.undo.None? && s.nextId == nextId + 1 && s.resume == pos + 1 &&
      |s.strip| == |strip| && s.strip[..pos] == strip[..pos] && s.strip[pos + 1..] == strip[pos + 1..] &&
      s.strip[pos].id == nextId && s.strip[pos].data == r.text &&
      Visible(s.strip) == Visible(strip[..pos]) + r.text + Visible(strip[pos + 1..])
  {
    var s := ReplaceMatch(strip, nextId, pos, sp, ep, r).strip;
    assert s == s[..pos] + [s[pos]] + s[pos + 1..];
    VisibleAppend(s[..pos] + [s[pos]], s[pos + 1..]);
    VisibleAppend(s[..pos], [s[pos]]);
    VisibleSingle(s[pos]);
  }

  /** The walk over the text nodes "ab" and "cd" with the match "bc": the
      start node keeps its text, the end node becomes the node made for the
      end portion ("c" from offset 1 of the match, the rest of "cd" does not
      survive), and `revert` has nothing to undo. */
  lemma TwoNodeWalk(mk: Maker)
    ensures var strip := [Piece(0, "ab", None), Piece(1, "cd", None)];
      var m := Match(0, 1, 3, "bc", "abcd");
      var ep := Portion(1, 1, "c", 1, -1, Some(1), true);
      var r := mk(ep, m);
      var w := Walk(Begin(strip, 2, [m], []), mk);
      w.strip == [Piece(0, "ab", None), Piece(2, r.text, if r.Wrapped? then Some(r.tag) else None)] &&
      w.pending == [] && w.reverts == [] && Visible(w.strip) == "ab" + r.text
  {
    var strip := [Piece(0, "ab", None), Piece(1, "cd", None)];
    var m := Match(0, 1, 3, "bc", "abcd");
    var w0 := Begin(strip, 2, [m], []);
    var sp := Portion(0, 0, "b", 0, 1, Some(3), false);
    var ep := Portion(1, 1, "c", 1, -1, Some(1), true);
    assert Substring("ab", 1, 3) == "b";
    assert Substring("cd", -1, 1) == "c";
    WalkUnfold(w0, mk);
    var w1 := WalkState(strip, 2, 1, 2, Portions(Some(sp), [], None, 1), [m], []);
    assert Visit(w0).(pos := 1) == w1;
    WalkUnfold(w1, mk);
    var v1 := Visit(w1);
    assert v1.found == Portions(Some(sp), [], Some(ep), 2);
    var r := mk(ep, m);
    var nw := Piece(2, r.text, if r.Wrapped? then Some(r.tag) else None);
    assert Replace(v1, mk).strip == [Piece(0, "ab", None), nw];
    VisibleAppend([Piece(0, "ab", None)], [nw]);
    VisibleSingle(Piece(0, "ab", None));
    VisibleSingle(nw);
  }

  /** With the template "$&", the end node of that walk shows "c" in
      "retain" mode, so the document reads "abc" where replacing the match
      by itself should have left "abcd"; in "first" mode it is empty, and
      the document reads "ab". */
  lemma TwoNodeWalkModes(c: Options)
    requires c.replace.None?
    ensures var t := NodeMaker(c)(Portion(1, 1, "c", 1, -1, Some(1), true), Match(0, 1, 3, "bc", "abcd")).text;
      (c.portionMode == Some(RetainMode) ==> t == "c") && (c.portionMode == Some(FirstMode) ==> t == "")
  {
    SubstituteTokens(Match(0, 1, 3, "bc", "abcd"));
    assert SubstringFrom("bc", 1) == "c";
  }

  // ---------------------------------------------------------------------
  // The document and the finder
  // ---------------------------------------------------------------------

  /** The live document, as the strip of the text nodes the walk visits. */
  class Document {
    var strip: seq<Piece>
    var nextId: nat

    /** The document holding the visited text nodes of a subtree. */
    constructor (texts: seq<string>)
      ensures strip == Pieces(texts, 0) && nextId == |texts|
    {
      strip := Pieces(texts, 0);
      nextId := |texts|;
    }
  }

  class Finder {
    const doc: Document
    const options: Options
    var reverts: seq<Undo>
    var matches: seq<Match>

    constructor (doc: Document, options: Options, matches: seq<Match>)
      ensures this.doc == doc && this.options == options
      ensures this.matches == matches && reverts == []
    {
      this.doc := doc;
      this.options := options;
      this.matches := matches;
      reverts := [];
    }

    /** `replaceMatch` on the live document. */
    method Splice(m: Match, sp: Portion, ep: Portion, pos: nat) returns (resume: nat)
      requires pos < |doc.strip|
      modifies this, doc
      ensures var s := ReplaceMatch(old(doc.strip), old(doc.nextId), pos, sp, ep, PortionReplacement(options, ep, m));
        doc.strip == s.strip && doc.nextId == s.nextId && resume == s.resume &&
        reverts == old(reverts) + UndoList(s.undo)
      ensures matches == old(matches)
    {
      var node := doc.strip[pos];
      var r := PortionReplacement(options, ep, m);
      var wrapper := if r.Wrapped? then Some(r.tag) else None;
      var id := doc.nextId;
      if sp.node == ep.node {
        var pre: seq<Piece> := [];
        var preceding: Option<nat> := None;
        if sp.indexInNode > 0 {
          pre := [Piece(id, Substring(node.data, 0, sp.indexInNode), None)];
          preceding := Some(id);
        }
        var newNode := Piece(id + 1, r.text, wrapper);
        var eIn := ep.endIndexInNode.GetOr(0);
        var post: seq<Piece> := [];
        var following: Option<nat> := None;
        if eIn < |node.data| {
          post := [Piece(id + 2, SubstringFrom(node.data, eIn), None)];
          following := Some(id + 2);
        }
        doc.strip := doc.strip[..pos] + pre + [newNode] + post + doc.strip[pos + 1..];
        doc.nextId := id + 3;
        reverts := reverts + [Undo(preceding, id + 1, following, node)];
        resume := pos + |pre| + 1;
      } else {
        doc.strip := doc.strip[pos := Piece(id, r.text, wrapper)];
        doc.nextId := id + 1;
        resume := pos + 1;
      }
    }

    /** The checks of `processMatches` on one text node. */
    static method Scan(p: Portions, node: Piece, m: Match, atIndex: int) returns (q: Portions)
      ensures q == VisitText(p, node, m, atIndex)
    {
      var start, inner, end, portionIndex := p.start, p.inner, p.end, p.count;
      if end.None? && |node.data| + atIndex >= m.endIndex {
        end := Some(EndPortion(node, portionIndex, m, atIndex));
        portionIndex := portionIndex + 1;
      } else if start.Some? {
        inner := inner + [InnerPortion(node, portionIndex, m, atIndex)];
        portionIndex := portionIndex + 1;
      }
      assert Portions(start, inner, end, portionIndex) == CheckEnd(p, node, m, atIndex);
      if start.None? && |node.data| + atIndex > m.startIndex {
        start := Some(StartPortion(node, portionIndex, m, atIndex));
        portionIndex := portionIndex + 1;
      }
      q := Portions(start, inner, end, portionIndex);
    }

    /** `processMatches`: the walk over the live document. */
    method ProcessMatches()
      requires matches != [] && NonEmptyMatches(matches)
      modifies this, doc
      ensures var w := Walk(Begin(old(doc.strip), old(doc.nextId), old(matches), old(reverts)), NodeMaker(options));
        doc.strip == w.strip && doc.nextId == w.nextId && reverts == w.reverts &&
        matches == if w.pending == [] then [] else w.pending[1..]
    {
      ghost var w0 := Begin(doc.strip, doc.nextId, matches, reverts);
      ghost var mk := NodeMaker(options);
      ghost var pending := matches;
      var m := matches[0];
      matches := matches[1..];
      HeadTail(pending);
      var more := true;
      var found := NoPortions;
      var pos: nat := 0;
      var atIndex := 0;
      while more && pos < |doc.strip|
        invariant pos <= |doc.strip| && found.end.None?
        invariant pending == if more then [m] + matches else []
        invariant !more ==> matches == []
        invariant NonEmptyMatches(pending)
        invariant Walk(WalkState(doc.strip, doc.nextId, pos, atIndex, found, pending, reverts), mk)
                  == Walk(w0, mk)
        decreases more, |matches|, |doc.strip| - pos
      {
        assert pending[0] == m;
        var replaced;
        found, pos, atIndex, replaced := VisitNode(m, found, pos, atIndex, pending);
        if replaced {
          ConsTail(m, matches);
          pending := matches;
          if matches == [] {
            more := false;
          } else {
            m := matches[0];
            matches := matches[1..];
            HeadTail(pending);
          }
        }
      }
      ghost var last := WalkState(doc.strip, doc.nextId, pos, atIndex, found, pending, reverts);
      assert Walk(last, mk) == last;
      if more {
        ConsTail(m, matches);
      }
    }

    /** One pass of the walk's loop: the portions of match `m` in the node
        at `pos`, and the replacement when the node completes the match. The
        walk from the new state ends where the walk from the old one does. */
    method VisitNode(m: Match, found: Portions, pos: nat, atIndex: int, ghost pending: seq<Match>)
      returns (found': Portions, pos': nat, atIndex': int, replaced: bool)
      requires pos < |doc.strip| && found.end.None?
      requires pending != [] && pending[0] == m && NonEmptyMatches(pending)
      modifies this, doc
      ensures pos' <= |doc.strip| && found'.end.None? && matches == old(matches)
      ensures NonEmptyMatches(pending[1..])
      ensures !replaced ==> doc.strip == old(doc.strip) && pos' == pos + 1
      ensures var ps := if replaced then pending[1..] else pending;
        Walk(WalkState(doc.strip, doc.nextId, pos', atIndex', found', ps, reverts), NodeMaker(options))
        == Walk(WalkState(old(doc.strip), old(doc.nextId), pos, atIndex, found, pending, old(reverts)),
                NodeMaker(options))
    {
      ghost var w := WalkState(doc.strip, doc.nextId, pos, atIndex, found, pending, reverts);
      ghost var mk := NodeMaker(options);
      var node := doc.strip[pos];
      found' := Scan(found, node, m, atIndex);
      atIndex' := atIndex + |node.data|;
      ghost var v := Visit(w);
      assert v == WalkState(doc.strip, doc.nextId, pos, atIndex', found', pending, reverts);
      NonEmptyTail(pending);
      WalkUnfold(w, mk);
      if found'.start.Some? && found'.end.Some? {
        ghost var r := Replace(v, mk);
        pos' := Splice(m, found'.start.value, found'.end.value, pos);
        atIndex' := atIndex' - (|node.data| - found'.end.value.endIndexInNode.GetOr(0));
        found' := NoPortions;
        replaced := true;
        assert r == WalkState(doc.strip, doc.nextId, pos', atIndex', found', pending[1..], reverts);
      } else {
        pos' := pos + 1;
        replaced := false;
      }
    }

    /** `revert`: every undo record, last one first; the records are then
        dropped, so a second `revert` changes nothing. */
    method Revert()
      modifies this, doc
      ensures doc.strip == RevertAll(old(doc.strip), old(reverts)) && reverts == []
      ensures doc.nextId == old(doc.nextId) && matches == old(matches)
    {
      var l := |reverts|;
      assert reverts[..l] == reverts;
      while l > 0
        invariant 0 <= l <= |reverts|
        invariant RevertAll(doc.strip, reverts[..l]) == RevertAll(old(doc.strip), old(reverts))
        invariant reverts == old(reverts) && doc.nextId == old(doc.nextId) && matches == old(matches)
      {
        l := l - 1;
        assert reverts[..l + 1][..l] == reverts[..l];
        doc.strip := ApplyUndo(doc.strip, reverts[l]);
      }
      reverts := [];
    }
  }

  /** The matches a successful search hands to the walk are non-empty. */
  lemma SearchNonEmpty(runs: seq<Run>, find: string)
    requires Search(runs, find).Ok? && Search(runs, find).value != []
    ensures find != "" && NonEmptyMatches(Search(runs, find).value)
  {
    ZeroLengthRejected(Leaves(runs), find, SearchState([], 0, 0));
    if find != "" {
      SearchProps(runs, find);
    }
  }

  /** `findAndReplaceDOMText(node, options)`: configure the options, search
      the aggregated text, and, when there are matches, walk the subtree's
      text nodes replacing them. A zero-length match is an error. */
  method FindAndReplace(root: Node, o: Options) returns (r: Result<Finder>)
    ensures var c := Configure(o); var s := Search(Aggregate(root, c), c.find);
      (r.Err? <==> s.Err?) && (r.Err? ==> r.msg == ZeroLengthError)
    ensures r.Ok? ==> fresh(r.value) && fresh(r.value.doc)
    ensures r.Ok? ==>
      var c := Configure(o); var ms := Search(Aggregate(root, c), c.find).value;
      var texts := TextNodes(root, c);
      var f := r.value;
      f.options == c && NonEmptyMatches(ms) &&
      var w := Walk(Begin(Pieces(texts, 0), |texts|, ms, []), NodeMaker(c));
      f.doc.strip == w.strip && f.doc.nextId == w.nextId && f.reverts == w.reverts &&
      f.matches == (if w.pending == [] then [] else w.pending[1..])
  {
    var c := Configure(o);
    var runs := GetText(root, c);
    var st := MatchAggregation(runs, c.find, SearchState([], 0, 0));
    if st.Err? {
      ZeroLengthRejected(Leaves(runs), c.find, SearchState([], 0, 0));
      return Err(ZeroLengthError);
    }
    var texts := TextNodes(root, c);
    var doc := new Document(texts);
    var f := new Finder(doc, c, st.value.matches);
    ghost var w0 := Begin(Pieces(texts, 0), |texts|, st.value.matches, []);
    if |f.matches| > 0 {
      SearchNonEmpty(runs, c.find);
      f.ProcessMatches();
    } else {
      WalkEmpty(w0, NodeMaker(c));
    }
    r := Ok(f);
  }

  /** With no match the walk changes nothing. */
  lemma WalkEmpty(w: WalkState, mk: Maker)
    requires w.pos <= |w.strip| && w.found.end.None? && w.pending == []
    ensures Walk(w, mk) == w
  {
  }

  /** The document a successful `FindAndReplace` leaves, when every match
      lies inside one text node: its text is the subtree's text with each
      match replaced by the substituted template, and `revert` gives back
      the original text nodes. */
  lemma FindAndReplaceInNodes(root: Node, o: Options)
    requires var c := Configure(o); var s := Search(Aggregate(root, c), c.find);
      s.Ok? && Placed(s.value, TextNodes(root, c), 0)
    ensures var c := Configure(o); var ms := Search(Aggregate(root, c), c.find).value;
      var texts := TextNodes(root, c);
      NonEmptyMatches(ms) &&
      var w := Walk(Begin(Pieces(texts, 0), |texts|, ms, []), NodeMaker(c));
      w.pending == [] &&
      Visible(w.strip) == Rewrite(Flatten(Aggregate(root, c)), 0, ms, Substitution(c)) &&
      RevertAll(w.strip, w.reverts) == Pieces(texts, 0)
  {
    var c := Configure(o);
    var ms := Search(Aggregate(root, c), c.find).value;
    var texts := TextNodes(root, c);
    PiecesTexts(texts, 0);
    AggregateText(root, c);
    WalkRewritesTemplate(Pieces(texts, 0), |texts|, ms, [], c);
    WalkRevertsDocument(texts, ms, NodeMaker(c));
  }

  /** Without a `replace` template (or with `$&`), a successful
      `FindAndReplace` whose matches each lie inside one text node leaves
      the subtree showing the same text as before; any `wrap` elements
      only regroup it. */
  lemma DefaultReplaceKeepsText(root: Node, o: Options)
    requires var c := Configure(o); var s := Search(Aggregate(root, c), c.find);
      s.Ok? && Placed(s.value, TextNodes(root, c), 0) && Template(c) == "$&"
    ensures var c := Configure(o); var ms := Search(Aggregate(root, c), c.find).value;
      var texts := TextNodes(root, c);
      NonEmptyMatches(ms) &&
      var w := Walk(Begin(Pieces(texts, 0), |texts|, ms, []), NodeMaker(c));
      Visible(w.strip) == Concat(texts)
  {
    var c := Configure(o);
    var runs := Aggregate(root, c);
    var ms := Search(runs, c.find).value;
    FindAndReplaceInNodes(root, o);
    SearchSpans(runs, c.find);
    DefaultTemplateKeepsText(Flatten(runs), ms, c);
    AggregateText(root, c);
  }
}
