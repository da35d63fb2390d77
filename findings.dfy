/**
 Six places where the editor does something other than what it evidently means
 to do. For each: a concrete sentence on which the behaviour as written goes wrong,
 and a corrected definition with the intended property proved about it.

 1. Left merge lowers a head on the absorbed neighbour below the merged token.
 2. A split inside a multiword token renumbers the children of every multiword token.
 3. `setRoot`, `writeDeprel` and `writePOS` hand the array of `findConlluId` to
    `changeConlluAttr`, which reads it as an object, so they always throw.
 4. `writeArc` looks up the part of speech of a subtoken's multiword token, which has none.
 5. The undo entry of `writeArc` reads its own `sentAndPrev` before that binding is
    initialised, so undoing an arc always throws and the arc stays.
 6. `tableEditCell` walks `table.rows` of a jQuery object, which has no such
    property, so the text it writes back holds no row at all.
 */
module Findings {
  import opened Wrappers
  import opened Conllu
  import opened Retokenise
  import opened Edits
  import JsStrings
  import ConlluTable

  /** A token with the given id, form, part of speech and head, `_` elsewhere. */
  function Word(id: int, form: string, upos: string, head: int): (w: Token)
    ensures w.id == id && w.form == form && w.upostag == upos && w.head == Some(head)
  {
    Token(id, form, "_", upos, "_", "_", Some(head), "dep", "_", "_")
  }

  // ---------------------------------------------------------------------------
  // 1. Left merge

  /** "a b c" with `c` depending on `a`: merging `b` with its left neighbour `a` makes `c` a root instead of a dependent of "ab". */
  lemma LeftMergeMakesRoot()
    ensures var s := [Tok(Word(1, "a", "X", 2)), Tok(Word(2, "b", "X", 0)), Tok(Word(3, "c", "X", 1))];
            var r := SubtokenMerge(s, 1, Left);
      && Governs(s, 0, 2) && |r| == 2 && r[0].token.form == "ab" && r[1].token.form == "c"
      && r[1].token.head == Some(0)
  {
    var s := [Tok(Word(1, "a", "X", 2)), Tok(Word(2, "b", "X", 0)), Tok(Word(3, "c", "X", 1))];
    SubtokenMergeAt(s, 1, Left, 0);
    SubtokenMergeAt(s, 1, Left, 1);
  }

  /** The id and head correction of a left merge with the head threshold one higher, `otherId + 1`, so that a head on the absorbed neighbour stays on the merged token. */
  function LeftRenumberToken(t: Token, n: nat, otherId: nat): Token {
    t.(head := if t.head.Some? && t.head.value > otherId + 1 then Some(t.head.value - 1) else t.head,
       id := if n >= otherId then t.id - 1 else t.id)
  }

  /** One step of the corrected renumbering: tokens are renumbered, multiword tokens are not. */
  function LeftRenumberElement(e: Element, n: nat, otherId: nat): Element {
    match e
    case Tok(t) => Tok(LeftRenumberToken(t, n, otherId))
    case Multi(_, _) => e
  }

  /** The corrected renumbering loop of a left merge. */
  function LeftRenumbered(s: seq<Element>, otherId: nat): (r: seq<Element>)
    ensures |r| == |s|
    ensures forall n :: 0 <= n < |s| ==> r[n] == LeftRenumberElement(s[n], n, otherId)
  {
    seq(|s|, n requires 0 <= n < |s| => LeftRenumberElement(s[n], n, otherId))
  }

  /** Subtoken merge with the left neighbour, corrected. */
  function LeftMergeIntended(s: seq<Element>, nodeId: nat): seq<Element>
    requires HasNeighbour(s, nodeId, Left)
  {
    var other := nodeId - 1;
    LeftRenumbered(Without(s[nodeId := WithForm(s[nodeId], MergedForm(s, nodeId, Left))], other), other)
  }

  /** Where the token at old position `p` ends up after a left merge, the absorbed neighbour going to the merged token. */
  function MergedLeftPos(p: nat, nodeId: nat): int {
    if p < nodeId then p else p - 1
  }

  /** The corrected left merge, position by position. */
  lemma LeftMergeIntendedAt(s: seq<Element>, nodeId: nat, k: nat)
    requires HasNeighbour(s, nodeId, Left) && k < |s| - 1
    ensures var src := if k < nodeId - 1 then k else k + 1;
            var e := if src == nodeId then WithForm(s[src], MergedForm(s, nodeId, Left)) else s[src];
      && |LeftMergeIntended(s, nodeId)| == |s| - 1
      && LeftMergeIntended(s, nodeId)[k] == LeftRenumberElement(e, k, nodeId - 1)
  {
  }

  /** One arc through the corrected left merge. */
  lemma LeftMergeIntendedArc(s: seq<Element>, nodeId: nat, p: nat, q: nat)
    requires Dense(s) && HasNeighbour(s, nodeId, Left)
    requires Governs(s, q, p) && p != nodeId - 1
    ensures var r := LeftMergeIntended(s, nodeId);
      && 0 <= MergedLeftPos(p, nodeId) < |r| && r[MergedLeftPos(p, nodeId)].Tok?
      && r[MergedLeftPos(p, nodeId)].token.head == Some(MergedLeftPos(q, nodeId) + 1)
  {
    LeftMergeIntendedAt(s, nodeId, MergedLeftPos(p, nodeId) as nat);
  }

  /**
   The corrected left merge on a dense sentence: ids stay dense, and every head
   names the same token as before, a head on the absorbed neighbour now naming the
   merged token.
   */
  lemma LeftMergeIntendedKeepsHeads(s: seq<Element>, nodeId: nat)
    requires Dense(s) && HasNeighbour(s, nodeId, Left)
    ensures var r := LeftMergeIntended(s, nodeId);
      && |r| == |s| - 1 && Dense(r)
      && forall p, q :: Governs(s, q, p) && p != nodeId - 1 ==> Governs(r, MergedLeftPos(q, nodeId), MergedLeftPos(p, nodeId))
  {
    var r := LeftMergeIntended(s, nodeId);
    forall k | 0 <= k < |r| ensures r[k].Tok? && r[k].token.id == k + 1 {
      LeftMergeIntendedAt(s, nodeId, k);
    }
    forall p, q | Governs(s, q, p) && p != nodeId - 1 ensures Governs(r, MergedLeftPos(q, nodeId), MergedLeftPos(p, nodeId)) {
      LeftMergeIntendedArc(s, nodeId, p, q);
    }
  }

  // ---------------------------------------------------------------------------
  // 2. Split inside a multiword token

  /** Two multiword tokens "ab" (ids 1, 2) and "cd" (ids 3, 4); splitting `c` makes the second child of "ab" id 3, the id the first child of "cd" keeps. */
  lemma SubSplitDuplicatesId()
    ensures var s := [Multi("ab", [Word(1, "a", "X", 0), Word(2, "b", "X", 1)]), Multi("cd", [Word(3, "c", "X", 1), Word(4, "d", "X", 3)])];
            var r := Shifted(Inserted(s, Sub(1, 0), "c", "x"), Sub(1, 0));
      && r[0].tokens[1].id == 3 && r[1].tokens[0].id == 3
  {
    var s := [Multi("ab", [Word(1, "a", "X", 0), Word(2, "b", "X", 1)]), Multi("cd", [Word(3, "c", "X", 1), Word(4, "d", "X", 3)])];
    var ins := Inserted(s, Sub(1, 0), "c", "x");
    assert ins[0] == s[0];
    assert ins[1].tokens[0] == Word(3, "c", "X", 1);
    assert ShiftElement(ins[0], 0, Sub(1, 0)).tokens[1].id == 3;
  }

  /** The id test of the corrected split: positions after the split token, and children after it inside its own multiword token. */
  predicate BumpsIntended(i: nat, j: nat, addr: Address) {
    i > addr.outer || (addr.Sub? && i == addr.outer && j > addr.inner)
  }

  /** The corrected renumbering of the children of the multiword token at `i`. */
  function ShiftChildrenIntended(ch: seq<Token>, i: nat, addr: Address): (r: seq<Token>)
    ensures |r| == |ch|
    ensures forall j :: 0 <= j < |ch| ==> r[j] == ShiftToken(ch[j], BumpsIntended(i, j, addr), addr.outer)
  {
    seq(|ch|, j requires 0 <= j < |ch| => ShiftToken(ch[j], BumpsIntended(i, j, addr), addr.outer))
  }

  /** One step of the corrected renumbering loop of a split. */
  function ShiftElementIntended(e: Element, i: nat, addr: Address): Element {
    match e
    case Tok(t) => Tok(ShiftToken(t, i > addr.outer, addr.outer))
    case Multi(f, ch) => Multi(f, ShiftChildrenIntended(ch, i, addr))
  }

  /** The corrected renumbering loop of a split. */
  function ShiftedIntended(s: seq<Element>, addr: Address): (r: seq<Element>)
    ensures |r| == |s|
    ensures forall i :: 0 <= i < |s| ==> r[i] == ShiftElementIntended(s[i], i, addr)
  {
    seq(|s|, i requires 0 <= i < |s| => ShiftElementIntended(s[i], i, addr))
  }

  /** The ids of a run of tokens. */
  function Ids(ts: seq<Token>): (r: seq<int>)
    ensures |r| == |ts| && forall k :: 0 <= k < |ts| ==> r[k] == ts[k].id
  {
    seq(|ts|, k requires 0 <= k < |ts| => ts[k].id)
  }

  /** The ids run `start`, `start + 1`, ... */
  ghost predicate NumberedFrom(ids: seq<int>, start: int) {
    forall k :: 0 <= k < |ids| ==> ids[k] == start + k
  }

  /** `e2` holds as many tokens as `e1`, each with the id of its counterpart plus `d`. */
  ghost predicate ShiftsIdsBy(e1: Element, e2: Element, d: int) {
    && |TokensOf(e2)| == |TokensOf(e1)|
    && forall j :: 0 <= j < |TokensOf(e1)| ==> TokensOf(e2)[j].id == TokensOf(e1)[j].id + d
  }

  /** The corrected renumbering leaves the ids of an element before the split alone and raises those of an element after it by one. */
  lemma ShiftElementIds(e: Element, k: nat, addr: Address)
    requires k != addr.outer
    ensures ShiftsIdsBy(e, ShiftElementIntended(e, k, addr), if k > addr.outer then 1 else 0)
  {
  }

  /** If every element of `b` carries the ids of the matching element of `a` plus `d`, the textual order of `b` does too. */
  lemma {:induction false} FlatIdsPlus(a: seq<Element>, b: seq<Element>, d: int)
    requires |a| == |b|
    requires forall k :: 0 <= k < |a| ==> ShiftsIdsBy(a[k], b[k], d)
    ensures |Flatten(b)| == |Flatten(a)|
    ensures forall j :: 0 <= j < |Flatten(a)| ==> Flatten(b)[j].id == Flatten(a)[j].id + d
  {
    if a != [] {
      FlatIdsPlus(a[1..], b[1..], d);
      assert ShiftsIdsBy(a[0], b[0], d);
      var x, y := Flatten(a), Flatten(b);
      assert x == TokensOf(a[0]) + Flatten(a[1..]);
      assert y == TokensOf(b[0]) + Flatten(b[1..]);
      forall j | 0 <= j < |x| ensures y[j].id == x[j].id + d {
        if j >= |TokensOf(a[0])| {
          assert x[j] == Flatten(a[1..])[j - |TokensOf(a[0])|];
          assert y[j] == Flatten(b[1..])[j - |TokensOf(a[0])|];
        }
      }
    }
  }

  /** The ids of the children after the corrected split of child `i`: the children before it keep theirs, the two halves take `c.id` and `c.id + 1`, and the rest move up by one. */
  lemma SplitChildIds(ch: seq<Token>, o: nat, i: nat, a: string, b: string)
    requires i < |ch|
    ensures var ins := ch[..i] + [ch[i].(form := a), NewToken(ch[i].id, b)] + ch[i + 1..];
            var r := ShiftChildrenIntended(ins, o, Sub(o, i));
      && |r| == |ch| + 1
      && (forall j :: 0 <= j <= i ==> r[j].id == ch[j].id)
      && r[i + 1].id == ch[i].id + 1
      && (forall j :: i + 1 < j < |r| ==> r[j].id == ch[j - 1].id + 1)
  {
    var ins := ch[..i] + [ch[i].(form := a), NewToken(ch[i].id, b)] + ch[i + 1..];
    forall j | i + 1 < j < |ins| ensures ins[j] == ch[j - 1] {
      assert ins[j] == ch[i + 1..][j - i - 2];
    }
  }

  /** Numbering after an insertion: a run numbered 1, 2, ... stays so when the part before keeps its ids, the middle gains one token as `SplitChildIds` describes, and the part after moves up by one. */
  lemma InsertKeepsNumbering(x: seq<Token>, ch: seq<Token>, z: seq<Token>, x': seq<Token>, m: seq<Token>, z': seq<Token>, i: nat)
    requires i < |ch| && NumberedFrom(Ids(x + ch + z), 1)
    requires |x'| == |x| && forall j :: 0 <= j < |x| ==> x'[j].id == x[j].id
    requires |z'| == |z| && forall j :: 0 <= j < |z| ==> z'[j].id == z[j].id + 1
    requires |m| == |ch| + 1
    requires (forall j :: 0 <= j <= i ==> m[j].id == ch[j].id) && m[i + 1].id == ch[i].id + 1
    requires forall j :: i + 1 < j < |m| ==> m[j].id == ch[j - 1].id + 1
    ensures NumberedFrom(Ids(x' + m + z'), 1)
  {
    var fs, fr := x + ch + z, x' + m + z';
    var P, L := |x|, |ch|;
    forall k | 0 <= k < |fr| ensures fr[k].id == k + 1 {
      if k < P {
        assert fr[k] == x'[k] && fs[k] == x[k];
        assert Ids(fs)[k] == k + 1;
      } else if k < P + L + 1 {
        assert fr[k] == m[k - P];
        if k - P <= i {
          assert fs[k] == ch[k - P];
          assert Ids(fs)[k] == k + 1;
        } else {
          assert fs[k - 1] == ch[k - P - 1];
          assert Ids(fs)[k - 1] == k;
        }
      } else {
        assert fr[k] == z'[k - P - L - 1];
        assert fs[k - 1] == z[k - P - L - 1];
        assert Ids(fs)[k - 1] == k;
      }
    }
  }

  /**
   The corrected split inside a multiword token: if the ids of the tokens in
   textual order ran 1, 2, ..., they still do, one longer. (As written, this fails:
   see `SubSplitDuplicatesId`.)
   */
  lemma SubSplitIntendedKeepsNumbering(s: seq<Element>, o: nat, i: nat, a: string, b: string)
    requires o < |s| && s[o].Multi? && i < |s[o].tokens|
    requires NumberedFrom(Ids(Flatten(s)), 1)
    ensures var r := ShiftedIntended(Inserted(s, Sub(o, i), a, b), Sub(o, i));
      && |Flatten(r)| == |Flatten(s)| + 1 && NumberedFrom(Ids(Flatten(r)), 1)
  {
    var ch := s[o].tokens;
    var ch' := ch[..i] + [ch[i].(form := a), NewToken(ch[i].id, b)] + ch[i + 1..];
    var pre, post := s[..o], s[o + 1..];
    assert s == pre + [Multi(s[o].form, ch)] + post by {
      CutAt(s, o);
    }
    assert Inserted(s, Sub(o, i), a, b) == pre + [Multi(s[o].form, ch')] + post by {
      CutAt(Inserted(s, Sub(o, i), a, b), o);
    }
    SplitNumberingParts(pre, s[o].form, ch, post, i, a, b);
  }

  /** `SubSplitIntendedKeepsNumbering` on a sentence cut into the elements before the multiword token, the multiword token and the elements after it. */
  lemma SplitNumberingParts(pre: seq<Element>, f: string, ch: seq<Token>, post: seq<Element>, i: nat, a: string, b: string)
    requires i < |ch| && NumberedFrom(Ids(Flatten(pre + [Multi(f, ch)] + post)), 1)
    ensures var ch' := ch[..i] + [ch[i].(form := a), NewToken(ch[i].id, b)] + ch[i + 1..];
            var r := ShiftedIntended(pre + [Multi(f, ch')] + post, Sub(|pre|, i));
      && |Flatten(r)| == |Flatten(pre + [Multi(f, ch)] + post)| + 1 && NumberedFrom(Ids(Flatten(r)), 1)
  {
    var o := |pre|;
    var addr := Sub(o, i);
    var ch' := ch[..i] + [ch[i].(form := a), NewToken(ch[i].id, b)] + ch[i + 1..];
    var r := ShiftedIntended(pre + [Multi(f, ch')] + post, addr);
    assert Flatten(pre + [Multi(f, ch)] + post) == Flatten(pre) + ch + Flatten(post) by {
      FlattenAround(pre, Multi(f, ch), post);
    }
    var x', m, z' := SplitFlatParts(pre, Multi(f, ch'), post, addr);
    SplitChildIds(ch, o, i, a, b);
    InsertKeepsNumbering(Flatten(pre), ch, Flatten(post), x', m, z', i);
  }

  /** The textual order after the corrected renumbering around the element at `|pre|`: the tokens before it with their ids, its renumbered children, and the tokens after it with their ids one up. */
  lemma SplitFlatParts(pre: seq<Element>, e: Element, post: seq<Element>, addr: Address) returns (x': seq<Token>, m: seq<Token>, z': seq<Token>)
    requires addr.outer == |pre|
    ensures Flatten(ShiftedIntended(pre + [e] + post, addr)) == x' + m + z'
    ensures m == TokensOf(ShiftElementIntended(e, |pre|, addr))
    ensures |x'| == |Flatten(pre)| && forall j :: 0 <= j < |x'| ==> x'[j].id == Flatten(pre)[j].id
    ensures |z'| == |Flatten(post)| && forall j :: 0 <= j < |z'| ==> z'[j].id == Flatten(post)[j].id + 1
  {
    var o := |pre|;
    var r := ShiftedIntended(pre + [e] + post, addr);
    ShiftedIntendedParts(pre, e, post, addr);
    var rpre, mid, rpost := r[..o], r[o], r[o + 1..];
    assert Flatten(r) == Flatten(rpre) + TokensOf(mid) + Flatten(rpost) by {
      CutAt(r, o);
      FlattenAround(rpre, mid, rpost);
    }
    FlatIdsPlus(pre, rpre, 0);
    FlatIdsPlus(post, rpost, 1);
    x', m, z' := Flatten(rpre), TokensOf(mid), Flatten(rpost);
  }

  /** The corrected renumbering of `pre + [e] + post` around the element at `|pre|`: ids before it unchanged, ids after it one up, and the element itself renumbered as `ShiftElementIntended` says. */
  lemma ShiftedIntendedParts(pre: seq<Element>, e: Element, post: seq<Element>, addr: Address)
    requires addr.outer == |pre|
    ensures var r := ShiftedIntended(pre + [e] + post, addr);
      && |r| == |pre| + 1 + |post|
      && r[|pre|] == ShiftElementIntended(e, |pre|, addr)
      && (forall k :: 0 <= k < |pre| ==> ShiftsIdsBy(pre[k], r[..|pre|][k], 0))
      && (forall k :: 0 <= k < |post| ==> ShiftsIdsBy(post[k], r[|pre| + 1..][k], 1))
  {
    var ins := pre + [e] + post;
    var r := ShiftedIntended(ins, addr);
    forall k | 0 <= k < |pre| ensures ShiftsIdsBy(pre[k], r[..|pre|][k], 0) {
      assert ins[k] == pre[k];
      ShiftElementIds(pre[k], k, addr);
    }
    forall k | 0 <= k < |post| ensures ShiftsIdsBy(post[k], r[|pre| + 1..][k], 1) {
      assert ins[|pre| + 1 + k] == post[k];
      ShiftElementIds(post[k], |pre| + 1 + k, addr);
    }
  }

  // ---------------------------------------------------------------------------
  // 3. The indices handed to changeConlluAttr

  /** The `indices` argument of `changeConlluAttr`: the object of `findConlluId2`, or the bare array `[isSubtoken, outerIndex, innerIndex]` of `findConlluId`. */
  datatype Indices =
    | IndicesObject(addr: Address)
    | IndicesArray(isSubtoken: bool, outerIndex: Option<nat>, innerIndex: Option<nat>)

  /**
   `changeConlluAttr(sent, indices, attrName, newVal)` as written: the new sentence
   and the previous value, or `None` where it throws. An array has no
   `isSubtoken` and no `outerIndex` property, so `sent.tokens[indices.outerIndex]`
   is `undefined` and reading a field of it throws. `None` stands for that thrown
   error, by definition for the array; the evidence is this reading of the code.
   A value of the wrong kind for its field is outside the model and also gives `None`.
   */
  function ChangeConlluAttr(s: seq<Element>, indices: Indices, a: Attr, v: Value): Option<(seq<Element>, Option<Value>)> {
    match indices
    case IndicesObject(addr) =>
      if Fits(a, v) && AttrAt(s, addr, a).Some? then Some((WithAttr(s, addr, a, v), AttrAt(s, addr, a))) else None
    case IndicesArray(_, _, _) => None
  }

  /** `setRoot(wf)` as written, with `findConlluId`'s array for the token at `outer`. */
  function SetRootAsWritten(s: seq<Element>, outer: Option<nat>): Option<seq<Element>> {
    var indices := IndicesArray(false, outer, None);
    match ChangeConlluAttr(s, indices, Deprel, Text("root"))
    case None => None
    case Some(p) =>
      match ChangeConlluAttr(p.0, indices, Head, HeadRef(Some(0)))
      case None => None
      case Some(q) => Some(q.0)
  }

  /**
   A sentence with one token: passed as the object, the write stores the relation
   and gives back the old one; passed as `findConlluId`'s array, the same slot
   throws, and so does every `setRoot`, and every `writeDeprel` or `writePOS` that
   looks its indices up itself. The first two clauses follow from the definition of
   `ChangeConlluAttr` on an array; the content proved here is that the object
   address does resolve the slot. The intended edit is `Edits.Rooted`.
   */
  lemma ArrayIndicesThrow(s: seq<Element>, outer: Option<nat>, a: Attr, v: Value)
    ensures ChangeConlluAttr(s, IndicesArray(false, outer, None), a, v).None?
    ensures SetRootAsWritten(s, outer).None?
    ensures var one := [Tok(Word(1, "a", "X", 2))];
            ChangeConlluAttr(one, IndicesObject(Top(0)), Deprel, Text("root")) == Some(([Tok(Word(1, "a", "X", 2).(deprel := "root"))], Some(Text("dep"))))
  {
    var one := [Tok(Word(1, "a", "X", 2))];
    assert WithAttr(one, Top(0), Deprel, Text("root")) == [Tok(Word(1, "a", "X", 2).(deprel := "root"))];
  }

  // ---------------------------------------------------------------------------
  // 4. The part of speech behind the automatic relation

  /** The relation implied by the part of speech of the addressed token itself, subtoken or not. */
  function AutoDeprelIntended(s: seq<Element>, addr: Address): (r: Option<string>)
    ensures r.Some? <==> exists u :: AttrAt(s, addr, UPosTag) == Some(Text(u)) && u in {"PUNCT", "DET", "CCONJ", "SCONJ"}
    ensures forall u :: AttrAt(s, addr, UPosTag) == Some(Text(u)) ==> r == Pos2Rel(u)
  {
    match AttrAt(s, addr, UPosTag)
    case Some(Text(u)) => Pos2Rel(u)
    case _ => None
  }

  /** For a top-level token the corrected lookup agrees with the one as written. */
  lemma AutoDeprelAgreesOnTop(s: seq<Element>, o: nat)
    requires o < |s| && s[o].Tok?
    ensures AutoDeprelIntended(s, Top(o)) == AutoDeprel(s, Top(o))
  {
  }

  /** "du" = "de" + "le": an arc drawn to the determiner "le" gets no `det` relation as written, and gets it when the subtoken's own tag is read. */
  lemma SubtokenGetsNoAutoDeprel()
    ensures var s := [Multi("du", [Word(1, "de", "ADP", 0), Word(2, "le", "DET", 3)]), Tok(Word(3, "chat", "NOUN", 0))];
      && AttrAt(s, Sub(0, 1), UPosTag) == Some(Text("DET"))
      && AutoDeprel(s, Sub(0, 1)) == None
      && AutoDeprelIntended(s, Sub(0, 1)) == Some("det")
  {
  }

  // ---------------------------------------------------------------------------
  // 5. Undoing an arc

  /**
   The undo entry of `writeArc` as written. Its `let` declares `sentAndPrev` and
   reads `sentAndPrev.previous` in the same declaration, so the read hits the new
   binding before it is initialised and throws a ReferenceError: the undo never
   writes anything. `None` stands for that thrown error, by definition; the
   evidence is this reading of the code, and what `ArcUndoThrows` proves on top
   of it is that the arc did change the sentence, so the failed undo loses an edit.
   */
  function UndoArcAsWritten(r: seq<Element>, addr: Address): Option<seq<Element>> {
    None
  }

  /** The evident undo of `writeArc`: the relation it wrote put back, when it wrote one, and then the old head. */
  function ArcUndone(r: seq<Element>, addr: Address, oldHead: Option<int>, oldRel: Option<string>): seq<Element> {
    var r1 := match oldRel
              case Some(d) => WithAttr(r, addr, Deprel, Text(d))
              case None => r;
    WithAttr(r1, addr, Head, HeadRef(oldHead))
  }

  /** An arc that changes the head of the token it is drawn to is never taken back by the undo as written. */
  lemma ArcUndoThrows(s: seq<Element>, addr: Address, source: int)
    requires AttrAt(s, addr, Head).Some? && AttrAt(s, addr, Head) != Some(HeadRef(Some(source)))
    ensures ArcWritten(s, addr, source) != s
    ensures UndoArcAsWritten(ArcWritten(s, addr, source), addr).None?
  {
    ArcWrittenEffect(s, addr, source);
  }

  /**
   The corrected undo takes back every arc: writing back the relation `writeArc`
   replaced, if it replaced one, and then the old head gives the sentence as it was.
   */
  lemma ArcUndoneRestores(s: seq<Element>, addr: Address, source: int)
    requires AttrAt(s, addr, Head).Some?
    ensures AttrAt(s, addr, Head).value.HeadRef? && AttrAt(s, addr, Deprel).Some? && AttrAt(s, addr, Deprel).value.Text?
    ensures var oldRel := if AutoDeprel(s, addr).Some? then Some(AttrAt(s, addr, Deprel).value.text) else None;
            ArcUndone(ArcWritten(s, addr, source), addr, AttrAt(s, addr, Head).value.head, oldRel) == s
  {
    var s1 := WithAttr(s, addr, Head, HeadRef(Some(source)));
    WithAttrFrame(s, addr, Head, HeadRef(Some(source)));
    match AutoDeprel(s, addr)
    case Some(rel) =>
      TwoWritesBack(s, addr, Head, HeadRef(Some(source)), Deprel, Text(rel));
    case None =>
      WriteBackRestores(s, addr, Head, HeadRef(Some(source)));
  }

  // ---------------------------------------------------------------------------
  // 6. Writing the table back to text

  /**
   The rows the loop of `tableEditCell` visits. `table` is `$('#indataTable')`, a
   jQuery object, and `table.rows` is undefined on it; `$.each` over undefined
   visits nothing (jQuery 3; older versions throw instead).
   */
  function RowsVisitedAsWritten(rows: seq<seq<string>>): seq<seq<string>> {
    []
  }

  /** The text `tableEditCell` stores in `#indata` as written: the serialisation of the rows it visits. */
  function EditCellTextAsWritten(rows: seq<seq<string>>): string {
    var seen := RowsVisitedAsWritten(rows);
    ConlluTable.Serialised(seen, |seen|)
  }

  /**
   Editing any cell of a table of clean rows empties the text as written, so
   rebuilding the table from it gives no row, where the intended write-back gives
   every row back (`ConlluTable.RoundTrip`).
   */
  lemma EditCellEmptiesText(rows: seq<seq<string>>, uposTags: set<string>, deprels: set<string>)
    requires |rows| > 0 && forall i :: 0 <= i < |rows| ==> ConlluTable.CleanRow(rows[i])
    ensures EditCellTextAsWritten(rows) == ""
    ensures var lines := JsStrings.Split(EditCellTextAsWritten(rows), '\n');
            ConlluTable.RowsOf(lines, |lines|, uposTags, deprels) == []
    ensures var lines := JsStrings.Split(ConlluTable.Serialised(rows, |rows|), '\n');
            |ConlluTable.RowsOf(lines, |lines|, uposTags, deprels)| == |rows|
  {
    var lines := JsStrings.Split("", '\n');
    assert lines == [""];
    assert ConlluTable.ClassifyLine(0, "", uposTags, deprels).None? by {
      assert JsStrings.Blank("");
    }
    ConlluTable.RoundTrip(rows, uposTags, deprels);
  }
}
