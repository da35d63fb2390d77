/**
 What retokenisation does to a sentence, as functions of the old top-level
 sequence: splitting a token in two (`splitTokens` with `shiftIndices`), merging
 a token with its neighbour (`mergeNodes` with `renumberNodes`, in subtoken and in
 supertoken mode), and dissolving a multiword token (`removeSup`). The threshold
 arithmetic is the source's, comparing head values with array positions.

 On a dense sentence (all tokens, id = position + 1) the lemmas show that split
 and right merge keep ids dense and heads on the same token, that left merge keeps
 ids dense while a head on the absorbed token ends one token too low, and that
 supertoken merge and dissolution leave the textual order of tokens alone.
 */
module Retokenise {
  import opened Wrappers
  import opened Conllu
  import JsStrings

  /** Token `p` has as head the id of token `q`: its arc comes from `q`. */
  ghost predicate Governs(s: seq<Element>, q: int, p: int) {
    && 0 <= p < |s| && 0 <= q < |s| && s[p].Tok? && s[q].Tok?
    && s[p].token.head == Some(s[q].token.id)
  }

  /** The two tokens agree on every field but id and head. */
  predicate SameWord(t: Token, u: Token) {
    t.(id := 0, head := None) == u.(id := 0, head := None)
  }

  // ---------------------------------------------------------------------------
  // Split

  /** `formNewToken({"id": id, "form": form})`; the fields it fills in besides id and form are taken as `_`, with no head. */
  function NewToken(id: int, form: string): (t: Token)
    ensures t.id == id && t.form == form && t.head == None
  {
    Token(id, form, "_", "_", "_", "_", None, "_", "_", "_")
  }

  /** Pieces 0 and 1 of `text.split(" ")`: the text before the first space, and the text from there up to the next space or the end. */
  function SplitPieces(text: string): (p: (string, string))
    requires ' ' in text
    ensures ' ' !in p.0 && ' ' !in p.1
    ensures var n := |p.0| + 1 + |p.1|;
            && n <= |text| && text[..n] == p.0 + " " + p.1
            && (n == |text| || text[n] == ' ')
  {
    FirstTwoPieces(text);
    var parts := JsStrings.Split(text, ' ');
    (parts[0], parts[1])
  }

  /** A text holding a space splits into at least two pieces, and it starts with the first, a space and the second, followed by its end or another space. */
  lemma FirstTwoPieces(text: string)
    requires ' ' in text
    ensures |JsStrings.Split(text, ' ')| >= 2
    ensures var parts := JsStrings.Split(text, ' ');
            var n := |parts[0]| + 1 + |parts[1]|;
      && n <= |text| && text[..n] == parts[0] + " " + parts[1]
      && (n == |text| || text[n] == ' ')
  {
    var parts := JsStrings.Split(text, ' ');
    JsStrings.SplitHasTwo(text, ' ');
    JsStrings.SplitHead(text, ' ');
    var k := |parts[0]|;
    assert k < |text| && text[..k] == parts[0] && text[k] == ' ';
    var rest := text[k + 1..];
    assert parts[1] == JsStrings.Split(rest, ' ')[0];
    var m := |parts[1]|;
    assert m <= |rest| && rest[..m] == parts[1] && (m == |rest| || rest[m] == ' ') by {
      JsStrings.SplitHead(rest, ' ');
    }
    PrefixAround(text, k, m);
  }

  /** A prefix that runs past position `k` is the text before `k`, the character at `k` and the start of the text after it. */
  lemma PrefixAround(text: string, k: nat, m: nat)
    requires k + 1 + m <= |text|
    ensures text[..k + 1 + m] == text[..k] + [text[k]] + text[k + 1..][..m]
  {
  }

  /** `shiftIndices`: the id grows by one when `bumpId`; a head greater than `outer + 1` grows by one. */
  function ShiftToken(t: Token, bumpId: bool, outer: nat): Token {
    t.(id := if bumpId then t.id + 1 else t.id,
       head := if t.head.Some? && t.head.value > outer + 1 then Some(t.head.value + 1) else t.head)
  }

  /** The id test of `shiftIndices` for child `j` of the element at `i`: `i > outerIndex || (innerIndex != undefined && j > innerIndex)`. */
  predicate BumpsChild(i: nat, j: nat, addr: Address) {
    i > addr.outer || (addr.Sub? && j > addr.inner)
  }

  /** `shiftIndices` over the children of the multiword token at `i`. */
  function ShiftChildren(ch: seq<Token>, i: nat, addr: Address): (r: seq<Token>)
    ensures |r| == |ch|
    ensures forall j :: 0 <= j < |ch| ==> r[j] == ShiftToken(ch[j], BumpsChild(i, j, addr), addr.outer)
  {
    seq(|ch|, j requires 0 <= j < |ch| => ShiftToken(ch[j], BumpsChild(i, j, addr), addr.outer))
  }

  /** One step of the renumbering loop of `splitTokens`: a token is shifted as top-level, a multiword token's children each as children; the group itself is untouched. */
  function ShiftElement(e: Element, i: nat, addr: Address): Element {
    match e
    case Tok(t) => Tok(ShiftToken(t, i > addr.outer, addr.outer))
    case Multi(f, ch) => Multi(f, ShiftChildren(ch, i, addr))
  }

  /** The whole renumbering loop of `splitTokens`. */
  function Shifted(s: seq<Element>, addr: Address): (r: seq<Element>)
    ensures |r| == |s|
    ensures forall i :: 0 <= i < |s| ==> r[i] == ShiftElement(s[i], i, addr)
  {
    seq(|s|, i requires 0 <= i < |s| => ShiftElement(s[i], i, addr))
  }

  /** The address names a token that `splitTokens` can split: a top-level token, or a child of a multiword token. */
  predicate SplitTarget(s: seq<Element>, addr: Address) {
    match addr
    case Top(o) => o < |s| && s[o].Tok?
    case Sub(o, i) => o < |s| && s[o].Multi? && i < |s[o].tokens|
  }

  /** The splice step of `splitTokens`: the addressed token takes the first piece as its form and a new token with its id and the second piece follows it. */
  function Inserted(s: seq<Element>, addr: Address, first: string, second: string): seq<Element>
    requires SplitTarget(s, addr)
  {
    match addr
    case Top(o) =>
      var t := s[o].token;
      s[..o] + [Tok(t.(form := first)), Tok(NewToken(t.id, second))] + s[o + 1..]
    case Sub(o, i) =>
      var ch := s[o].tokens;
      var c := ch[i];
      s[o := Multi(s[o].form, ch[..i] + [c.(form := first), NewToken(c.id, second)] + ch[i + 1..])]
  }

  /** The sentence after `splitTokens(text, sent, indices)`. */
  function SplitResult(s: seq<Element>, addr: Address, text: string): seq<Element>
    requires SplitTarget(s, addr) && ' ' in text
  {
    var p := SplitPieces(text);
    Shifted(Inserted(s, addr, p.0, p.1), addr)
  }

  /** Where the token at old position `p` ends up after a split at `o`. */
  function SplitPos(p: nat, o: nat): nat {
    if p <= o then p else p + 1
  }

  /** The splice of a top-level split, position by position. */
  lemma InsertedTopAt(s: seq<Element>, o: nat, a: string, b: string, k: nat)
    requires o < |s| && s[o].Tok? && k <= |s|
    ensures var ins := Inserted(s, Top(o), a, b);
      && |ins| == |s| + 1
      && ins[k] == if k < o then s[k]
                   else if k == o then Tok(s[o].token.(form := a))
                   else if k == o + 1 then Tok(NewToken(s[o].token.id, b))
                   else s[k - 1]
  {
    var t := s[o].token;
    var ins := Inserted(s, Top(o), a, b);
    assert ins == s[..o] + [Tok(t.(form := a)), Tok(NewToken(t.id, b))] + s[o + 1..];
    if k > o + 1 {
      assert ins[k] == s[o + 1..][k - o - 2];
    }
  }

  /** Splitting a top-level token of a dense sentence: one element more, ids dense, the first piece in place of the old form and the second in a new token after it, with no head. */
  lemma SplitKeepsDense(s: seq<Element>, o: nat, a: string, b: string)
    requires Dense(s) && o < |s|
    ensures var r := Shifted(Inserted(s, Top(o), a, b), Top(o));
      && |r| == |s| + 1 && Dense(r)
      && r[o].token.form == a && r[o + 1].token.form == b && r[o + 1].token.head == None
  {
    var r := Shifted(Inserted(s, Top(o), a, b), Top(o));
    forall k | 0 <= k < |r| ensures r[k].Tok? && r[k].token.id == k + 1 {
      InsertedTopAt(s, o, a, b, k);
    }
    InsertedTopAt(s, o, a, b, o);
    InsertedTopAt(s, o, a, b, o + 1);
  }

  /** Splitting a top-level token of a dense sentence changes no word but in its numbers, except for the form of the split token. */
  lemma SplitKeepsWords(s: seq<Element>, o: nat, a: string, b: string)
    requires Dense(s) && o < |s|
    ensures var r := Shifted(Inserted(s, Top(o), a, b), Top(o));
      && |r| == |s| + 1
      && SameWord(r[o].token.(form := s[o].token.form), s[o].token)
      && forall p :: 0 <= p < |s| && p != o ==> SameWord(r[SplitPos(p, o)].token, s[p].token)
  {
    InsertedTopAt(s, o, a, b, o);
    forall p | 0 <= p < |s| && p != o
      ensures SameWord(Shifted(Inserted(s, Top(o), a, b), Top(o))[SplitPos(p, o)].token, s[p].token)
    {
      InsertedTopAt(s, o, a, b, SplitPos(p, o));
    }
  }

  /** One arc through a top-level split of a dense sentence: it joins the same two tokens, at their new positions. */
  lemma SplitArc(s: seq<Element>, o: nat, a: string, b: string, p: nat, q: nat)
    requires Dense(s) && o < |s| && Governs(s, q, p)
    ensures Governs(Shifted(Inserted(s, Top(o), a, b), Top(o)), SplitPos(q, o), SplitPos(p, o))
  {
    var ins := Inserted(s, Top(o), a, b);
    var p', q' := SplitPos(p, o), SplitPos(q, o);
    InsertedTopAt(s, o, a, b, p');
    InsertedTopAt(s, o, a, b, q');
    assert ins[p'].token == if p == o then s[p].token.(form := a) else s[p].token;
    assert ins[q'].token.id == q + 1;
    assert Shifted(ins, Top(o))[q'] == ShiftElement(ins[q'], q', Top(o));
    assert Shifted(ins, Top(o))[p'] == ShiftElement(ins[p'], p', Top(o));
  }

  /** Splitting a top-level token of a dense sentence: every head names the same token as before, and a root stays a root. */
  lemma SplitKeepsHeads(s: seq<Element>, o: nat, a: string, b: string)
    requires Dense(s) && o < |s|
    ensures |Shifted(Inserted(s, Top(o), a, b), Top(o))| == |s| + 1
    ensures forall p, q :: Governs(s, q, p) ==> Governs(Shifted(Inserted(s, Top(o), a, b), Top(o)), SplitPos(q, o), SplitPos(p, o))
    ensures forall p :: 0 <= p < |s| && s[p].token.head == Some(0) ==> Shifted(Inserted(s, Top(o), a, b), Top(o))[SplitPos(p, o)].token.head == Some(0)
  {
    InsertedTopAt(s, o, a, b, 0);
    forall p, q | Governs(s, q, p) ensures Governs(Shifted(Inserted(s, Top(o), a, b), Top(o)), SplitPos(q, o), SplitPos(p, o)) {
      SplitArc(s, o, a, b, p, q);
    }
    forall p | 0 <= p < |s| && s[p].token.head == Some(0) ensures Shifted(Inserted(s, Top(o), a, b), Top(o))[SplitPos(p, o)].token.head == Some(0) {
      SplitRoot(s, o, a, b, p);
    }
  }

  /** A root stays a root through a top-level split. */
  lemma SplitRoot(s: seq<Element>, o: nat, a: string, b: string, p: nat)
    requires Dense(s) && o < |s| && p < |s| && s[p].token.head == Some(0)
    ensures var r := Shifted(Inserted(s, Top(o), a, b), Top(o));
      SplitPos(p, o) < |r| && r[SplitPos(p, o)].Tok? && r[SplitPos(p, o)].token.head == Some(0)
  {
    InsertedTopAt(s, o, a, b, SplitPos(p, o));
  }

  /** The split `writeWF` performs on a dense sentence, with the pieces of the typed text: the three lemmas above at once. */
  lemma SplitResultDense(s: seq<Element>, o: nat, text: string)
    requires Dense(s) && o < |s| && ' ' in text
    ensures var r := SplitResult(s, Top(o), text);
      && |r| == |s| + 1 && Dense(r)
      && r[o].token.form == SplitPieces(text).0 && r[o + 1].token.form == SplitPieces(text).1
      && forall p, q :: Governs(s, q, p) ==> Governs(r, SplitPos(q, o), SplitPos(p, o))
  {
    var pc := SplitPieces(text);
    SplitKeepsDense(s, o, pc.0, pc.1);
    SplitKeepsHeads(s, o, pc.0, pc.1);
  }

  // ---------------------------------------------------------------------------
  // Merge

  /** `side`: the neighbour to merge with. */
  datatype Side = Left | Right

  /** `how`: into one token (`"subtoken"`) or into a new multiword token (`"supertoken"`). */
  datatype MergeMode = SubtokenMode | SupertokenMode

  /** `otherId`: the neighbour's position. */
  function OtherIndex(nodeId: nat, side: Side): int {
    if side == Right then nodeId + 1 else nodeId - 1
  }

  /** `otherId >= 0 && sent.tokens[otherId]`, with the node itself inside the sentence. */
  predicate HasNeighbour(s: seq<Element>, nodeId: nat, side: Side) {
    nodeId < |s| && 0 <= OtherIndex(nodeId, side) < |s|
  }

  /** The leftmost of the two merged positions (`Math.min(nodeId, otherId)`). */
  function LeftOfPair(nodeId: nat, side: Side): int {
    if side == Right then nodeId else nodeId - 1
  }

  /**
   `newToken`: the left element's form followed by the right element's form,
   whichever side was chosen. The source reads the node's own part from the graph
   (`toMerge.data("form")`); the model reads it from the sentence, which is the
   same text because the graph is drawn from the sentence after every edit.
   */
  function MergedForm(s: seq<Element>, nodeId: nat, side: Side): (f: string)
    requires HasNeighbour(s, nodeId, side)
    ensures var m := LeftOfPair(nodeId, side); f == FormOf(s[m]) + FormOf(s[m + 1])
  {
    var other := OtherIndex(nodeId, side);
    if side == Right then FormOf(s[nodeId]) + FormOf(s[other]) else FormOf(s[other]) + FormOf(s[nodeId])
  }

  /** One step of `renumberNodes` on a token at position `n`: the head correction, then the id renumbering. */
  function RenumberToken(t: Token, n: nat, nodeId: nat, otherId: nat, side: Side): Token {
    t.(head := if t.head.Some? && ((side == Right && t.head.value > nodeId + 1) || (side == Left && t.head.value > otherId))
               then Some(t.head.value - 1) else t.head,
       id := if (side == Right && n > nodeId) || (side == Left && n >= otherId) then t.id - 1 else t.id)
  }

  /** One step of `renumberNodes`: tokens are renumbered, multiword tokens and their children are not. */
  function RenumberElement(e: Element, n: nat, nodeId: nat, otherId: nat, side: Side): Element {
    match e
    case Tok(t) => Tok(RenumberToken(t, n, nodeId, otherId, side))
    case Multi(_, _) => e
  }

  /** `renumberNodes(nodeId, otherId, sent, side)`. */
  function Renumbered(s: seq<Element>, nodeId: nat, otherId: nat, side: Side): (r: seq<Element>)
    ensures |r| == |s|
    ensures forall n :: 0 <= n < |s| ==> r[n] == RenumberElement(s[n], n, nodeId, otherId, side)
  {
    seq(|s|, n requires 0 <= n < |s| => RenumberElement(s[n], n, nodeId, otherId, side))
  }

  /** The sentence without the element at `k` (`splice(k, 1)`). */
  function Without(s: seq<Element>, k: nat): (r: seq<Element>)
    requires k < |s|
    ensures |r| == |s| - 1
    ensures forall n :: 0 <= n < |r| ==> r[n] == if n < k then s[n] else s[n + 1]
  {
    s[..k] + s[k + 1..]
  }

  /** Subtoken mode of `mergeNodes`: the node takes the merged form, the neighbour is removed, and the rest is renumbered. */
  function SubtokenMerge(s: seq<Element>, nodeId: nat, side: Side): seq<Element>
    requires HasNeighbour(s, nodeId, side)
  {
    var other := OtherIndex(nodeId, side) as nat;
    var s1 := s[nodeId := WithForm(s[nodeId], MergedForm(s, nodeId, side))];
    Renumbered(Without(s1, other), nodeId, other, side)
  }

  /** Supertoken mode needs two tokens to put into the new multiword token: the model's multiword tokens hold tokens only. */
  predicate PairOfTokens(s: seq<Element>, nodeId: nat, side: Side)
    requires HasNeighbour(s, nodeId, side)
  {
    var m := LeftOfPair(nodeId, side);
    s[m].Tok? && s[m + 1].Tok?
  }

  /** Supertoken mode of `mergeNodes`: the two elements, in sentence order and unchanged, become the children of a new multiword token in their place. */
  function SupertokenMerge(s: seq<Element>, nodeId: nat, side: Side): seq<Element>
    requires HasNeighbour(s, nodeId, side) && PairOfTokens(s, nodeId, side)
  {
    var m := LeftOfPair(nodeId, side) as nat;
    s[..m] + [Multi(MergedForm(s, nodeId, side), [s[m].token, s[m + 1].token])] + s[m + 2..]
  }

  /** Subtoken merge, position by position: the renumbering step applied to what the splice left at `k`. */
  lemma SubtokenMergeAt(s: seq<Element>, nodeId: nat, side: Side, k: nat)
    requires HasNeighbour(s, nodeId, side) && k < |s| - 1
    ensures var other := OtherIndex(nodeId, side) as nat;
            var f := MergedForm(s, nodeId, side);
            var src := if k < other then k else k + 1;
      && |SubtokenMerge(s, nodeId, side)| == |s| - 1
      && SubtokenMerge(s, nodeId, side)[k]
         == RenumberElement(if src == nodeId then WithForm(s[src], f) else s[src], k, nodeId, other, side)
  {
    var other := OtherIndex(nodeId, side) as nat;
    var src := if k < other then k else k + 1;
    var s1 := s[nodeId := WithForm(s[nodeId], MergedForm(s, nodeId, side))];
    var w := Without(s1, other);
    assert w[k] == s1[src];
    assert SubtokenMerge(s, nodeId, side) == Renumbered(w, nodeId, other, side);
  }

  /** Where the token at old position `p` ends up after a right merge at `nodeId`; the absorbed neighbour goes to the merged token. */
  function RightPos(p: nat, nodeId: nat): nat {
    if p <= nodeId then p else p - 1
  }

  /** Right merge on a dense sentence: one element fewer, ids dense, and the merged token carries its own form followed by the neighbour's. */
  lemma RightMergeKeepsDense(s: seq<Element>, nodeId: nat)
    requires Dense(s) && HasNeighbour(s, nodeId, Right)
    ensures var r := SubtokenMerge(s, nodeId, Right);
      && |r| == |s| - 1 && Dense(r)
      && r[nodeId].token.form == s[nodeId].token.form + s[nodeId + 1].token.form
  {
    var r := SubtokenMerge(s, nodeId, Right);
    forall k | 0 <= k < |r| ensures r[k].Tok? && r[k].token.id == k + 1 {
      SubtokenMergeAt(s, nodeId, Right, k);
    }
    SubtokenMergeAt(s, nodeId, Right, nodeId);
  }

  /** Right merge on a dense sentence changes no word but in its numbers, except for the merged token's form. */
  lemma RightMergeKeepsWords(s: seq<Element>, nodeId: nat)
    requires Dense(s) && HasNeighbour(s, nodeId, Right)
    ensures var r := SubtokenMerge(s, nodeId, Right);
      && |r| == |s| - 1
      && SameWord(r[nodeId].token.(form := s[nodeId].token.form), s[nodeId].token)
      && forall p :: 0 <= p < |s| && p != nodeId && p != nodeId + 1 ==> SameWord(r[RightPos(p, nodeId)].token, s[p].token)
  {
    SubtokenMergeAt(s, nodeId, Right, nodeId);
    forall p | 0 <= p < |s| && p != nodeId && p != nodeId + 1
      ensures SameWord(SubtokenMerge(s, nodeId, Right)[RightPos(p, nodeId)].token, s[p].token)
    {
      SubtokenMergeAt(s, nodeId, Right, RightPos(p, nodeId));
    }
  }

  /** One arc through a right merge, for a dependent that is not the absorbed neighbour: it comes from the same token, or from the merged token where it came from the neighbour. */
  lemma RightMergeArc(s: seq<Element>, nodeId: nat, p: nat, q: nat)
    requires Dense(s) && HasNeighbour(s, nodeId, Right)
    requires Governs(s, q, p) && p != nodeId + 1
    ensures Governs(SubtokenMerge(s, nodeId, Right), RightPos(q, nodeId), RightPos(p, nodeId))
  {
    var p', q' := RightPos(p, nodeId), RightPos(q, nodeId);
    SubtokenMergeAt(s, nodeId, Right, p');
    SubtokenMergeAt(s, nodeId, Right, q');
    var r := SubtokenMerge(s, nodeId, Right);
    assert r[q'].Tok? && r[q'].token.id == q' + 1;
    assert r[p'].Tok? && r[p'].token.head == Some(q' + 1);
  }

  /** A root that is not the absorbed neighbour stays a root through a right merge. */
  lemma RightMergeRoot(s: seq<Element>, nodeId: nat, p: nat)
    requires Dense(s) && HasNeighbour(s, nodeId, Right)
    requires p < |s| && p != nodeId + 1 && s[p].token.head == Some(0)
    ensures var r := SubtokenMerge(s, nodeId, Right);
      RightPos(p, nodeId) < |r| && r[RightPos(p, nodeId)].token.head == Some(0)
  {
    SubtokenMergeAt(s, nodeId, Right, RightPos(p, nodeId));
  }

  /** Right merge on a dense sentence: every head still names the same token, a head on the absorbed neighbour now naming the merged token; a root stays a root. */
  lemma RightMergeKeepsHeads(s: seq<Element>, nodeId: nat)
    requires Dense(s) && HasNeighbour(s, nodeId, Right)
    ensures |SubtokenMerge(s, nodeId, Right)| == |s| - 1
    ensures forall p, q :: Governs(s, q, p) && p != nodeId + 1 ==> Governs(SubtokenMerge(s, nodeId, Right), RightPos(q, nodeId), RightPos(p, nodeId))
    ensures forall p :: 0 <= p < |s| && p != nodeId + 1 && s[p].token.head == Some(0) ==> SubtokenMerge(s, nodeId, Right)[RightPos(p, nodeId)].token.head == Some(0)
  {
    forall p, q | Governs(s, q, p) && p != nodeId + 1 ensures Governs(SubtokenMerge(s, nodeId, Right), RightPos(q, nodeId), RightPos(p, nodeId)) {
      RightMergeArc(s, nodeId, p, q);
    }
    forall p | 0 <= p < |s| && p != nodeId + 1 && s[p].token.head == Some(0) ensures SubtokenMerge(s, nodeId, Right)[RightPos(p, nodeId)].token.head == Some(0) {
      RightMergeRoot(s, nodeId, p);
    }
  }

  /** Where the token at old position `p` ends up after a left merge at `nodeId`, for every token but the absorbed neighbour at `nodeId - 1`. */
  function LeftPos(p: nat, nodeId: nat): int {
    if p < nodeId - 1 then p else p - 1
  }

  /** Left merge on a dense sentence: one element fewer, ids dense, and the merged token, now at `nodeId - 1`, carries the neighbour's form followed by its own. */
  lemma LeftMergeKeepsDense(s: seq<Element>, nodeId: nat)
    requires Dense(s) && HasNeighbour(s, nodeId, Left)
    ensures var r := SubtokenMerge(s, nodeId, Left);
      && |r| == |s| - 1 && Dense(r)
      && r[nodeId - 1].token.form == s[nodeId - 1].token.form + s[nodeId].token.form
  {
    var r := SubtokenMerge(s, nodeId, Left);
    forall k | 0 <= k < |r| ensures r[k].Tok? && r[k].token.id == k + 1 {
      SubtokenMergeAt(s, nodeId, Left, k);
    }
    SubtokenMergeAt(s, nodeId, Left, nodeId - 1);
  }

  /** Left merge on a dense sentence changes no word but in its numbers, except for the merged token's form. */
  lemma LeftMergeKeepsWords(s: seq<Element>, nodeId: nat)
    requires Dense(s) && HasNeighbour(s, nodeId, Left)
    ensures var r := SubtokenMerge(s, nodeId, Left);
      && |r| == |s| - 1
      && SameWord(r[nodeId - 1].token.(form := s[nodeId].token.form), s[nodeId].token)
      && forall p :: 0 <= p < |s| && p != nodeId && p != nodeId - 1 ==> SameWord(r[LeftPos(p, nodeId)].token, s[p].token)
  {
    SubtokenMergeAt(s, nodeId, Left, nodeId - 1);
    forall p | 0 <= p < |s| && p != nodeId && p != nodeId - 1
      ensures SameWord(SubtokenMerge(s, nodeId, Left)[LeftPos(p, nodeId)].token, s[p].token)
    {
      SubtokenMergeAt(s, nodeId, Left, LeftPos(p, nodeId));
    }
  }

  /** The head one arc carries through a left merge, for a dependent that is not the absorbed neighbour: one less for a governor at or after the pair, `nodeId - 1` for the absorbed neighbour. */
  lemma LeftMergeArc(s: seq<Element>, nodeId: nat, p: nat, q: nat)
    requires Dense(s) && HasNeighbour(s, nodeId, Left)
    requires Governs(s, q, p) && p != nodeId - 1
    ensures var r := SubtokenMerge(s, nodeId, Left);
      && 0 <= LeftPos(p, nodeId) < |r| && r[LeftPos(p, nodeId)].Tok?
      && r[LeftPos(p, nodeId)].token.head == if q == nodeId - 1 then Some(nodeId - 1) else Some(q + 1 - (if q > nodeId - 1 then 1 else 0))
  {
    SubtokenMergeAt(s, nodeId, Left, LeftPos(p, nodeId) as nat);
  }

  /** A root other than the absorbed neighbour stays a root through a left merge: head 0 is never above the threshold `otherId`. */
  lemma LeftMergeRoot(s: seq<Element>, nodeId: nat, p: nat)
    requires Dense(s) && HasNeighbour(s, nodeId, Left)
    requires p < |s| && p != nodeId - 1 && s[p].token.head == Some(0)
    ensures var r := SubtokenMerge(s, nodeId, Left);
      0 <= LeftPos(p, nodeId) < |r| && r[LeftPos(p, nodeId)].Tok? && r[LeftPos(p, nodeId)].token.head == Some(0)
  {
    SubtokenMergeAt(s, nodeId, Left, LeftPos(p, nodeId) as nat);
  }

  /** An arc through a left merge whose ends are both other than the absorbed neighbour joins the same two tokens. */
  lemma LeftMergeGoverns(s: seq<Element>, nodeId: nat, p: nat, q: nat)
    requires Dense(s) && HasNeighbour(s, nodeId, Left)
    requires Governs(s, q, p) && p != nodeId - 1 && q != nodeId - 1
    ensures Governs(SubtokenMerge(s, nodeId, Left), LeftPos(q, nodeId), LeftPos(p, nodeId))
  {
    LeftMergeArc(s, nodeId, p, q);
    SubtokenMergeAt(s, nodeId, Left, LeftPos(q, nodeId) as nat);
  }

  /** Left merge on a dense sentence: a head on any token but the absorbed neighbour still names the same token. */
  lemma LeftMergeKeepsHeads(s: seq<Element>, nodeId: nat)
    requires Dense(s) && HasNeighbour(s, nodeId, Left)
    ensures |SubtokenMerge(s, nodeId, Left)| == |s| - 1
    ensures forall p, q :: Governs(s, q, p) && p != nodeId - 1 && q != nodeId - 1 ==> Governs(SubtokenMerge(s, nodeId, Left), LeftPos(q, nodeId), LeftPos(p, nodeId))
  {
    forall p, q | Governs(s, q, p) && p != nodeId - 1 && q != nodeId - 1 ensures Governs(SubtokenMerge(s, nodeId, Left), LeftPos(q, nodeId), LeftPos(p, nodeId)) {
      LeftMergeGoverns(s, nodeId, p, q);
    }
  }

  /** Left merge on a dense sentence: a head on the absorbed neighbour (id `nodeId`) ends at `nodeId - 1`, one below the merged token: the token before the pair, or the root. */
  lemma LeftMergeDropsAbsorbedHead(s: seq<Element>, nodeId: nat)
    requires Dense(s) && HasNeighbour(s, nodeId, Left)
    ensures var r := SubtokenMerge(s, nodeId, Left);
      && |r| == |s| - 1
      && forall p :: Governs(s, nodeId - 1, p) && p != nodeId - 1 ==> r[LeftPos(p, nodeId)].token.head == Some(nodeId - 1)
  {
    forall p | Governs(s, nodeId - 1, p) && p != nodeId - 1 ensures
      0 <= LeftPos(p, nodeId) < |SubtokenMerge(s, nodeId, Left)| &&
      SubtokenMerge(s, nodeId, Left)[LeftPos(p, nodeId)].token.head == Some(nodeId - 1)
    {
      LeftMergeArc(s, nodeId, p, nodeId - 1);
    }
  }

  /** Textual order over three consecutive parts. */
  lemma FlattenThree(a: seq<Element>, b: seq<Element>, c: seq<Element>)
    ensures Flatten(a + b + c) == Flatten(a) + Flatten(b) + Flatten(c)
  {
    FlattenAppend(a + b, c);
    FlattenAppend(a, b);
  }

  /** Textual order around one element. */
  lemma FlattenAround(pre: seq<Element>, e: Element, post: seq<Element>)
    ensures Flatten(pre + [e] + post) == Flatten(pre) + TokensOf(e) + Flatten(post)
  {
    FlattenThree(pre, [e], post);
    assert Flatten([e]) == TokensOf(e) by { assert [e][1..] == []; }
  }

  /** Supertoken merge shortens the sentence by one and leaves the textual order of tokens, ids and heads included, as it was. */
  lemma SupertokenMergeKeepsOrder(s: seq<Element>, nodeId: nat, side: Side)
    requires HasNeighbour(s, nodeId, side) && PairOfTokens(s, nodeId, side)
    ensures var r := SupertokenMerge(s, nodeId, side);
            var m := LeftOfPair(nodeId, side);
      && |r| == |s| - 1
      && r[..m] == s[..m]
      && r[m] == Multi(FormOf(s[m]) + FormOf(s[m + 1]), [s[m].token, s[m + 1].token])
      && r[m + 1..] == s[m + 2..]
      && Flatten(r) == Flatten(s)
  {
    var m := LeftOfPair(nodeId, side) as nat;
    var group := [Multi(MergedForm(s, nodeId, side), [s[m].token, s[m + 1].token])];
    var r := SupertokenMerge(s, nodeId, side);
    assert r == s[..m] + group + s[m + 2..];
    assert r[..m] == s[..m] && r[m + 1..] == s[m + 2..];
    SupertokenMergeFlatten(s, nodeId, side);
  }

  /** The supertoken merge keeps the textual order of tokens. */
  lemma SupertokenMergeFlatten(s: seq<Element>, nodeId: nat, side: Side)
    requires HasNeighbour(s, nodeId, side) && PairOfTokens(s, nodeId, side)
    ensures Flatten(SupertokenMerge(s, nodeId, side)) == Flatten(s)
  {
    var m := LeftOfPair(nodeId, side) as nat;
    var pre, post := s[..m], s[m + 2..];
    var pair := [s[m], s[m + 1]];
    var group := [Multi(MergedForm(s, nodeId, side), [s[m].token, s[m + 1].token])];
    assert s == pre + pair + post;
    FlattenThree(pre, pair, post);
    FlattenThree(pre, group, post);
    assert Flatten(pair) == [s[m].token, s[m + 1].token] by {
      assert pair[1..] == [s[m + 1]];
      assert Flatten([s[m + 1]]) == [s[m + 1].token] by { assert [s[m + 1]][1..] == []; }
    }
    assert Flatten(group) == [s[m].token, s[m + 1].token] by { assert group[1..] == []; }
  }

  // ---------------------------------------------------------------------------
  // Dissolving a multiword token

  /** `sent.tokens[currentId].tokens`: the children of a multiword token; a plain token has none (`$.each` over `undefined` does nothing). */
  function ChildrenOf(e: Element): seq<Token> {
    match e
    case Tok(_) => []
    case Multi(_, ch) => ch
  }

  /** The sentence after `removeSup`: the element at `pos` replaced, in place and in order, by its children. */
  function Dissolved(s: seq<Element>, pos: nat): seq<Element>
    requires pos < |s|
  {
    s[..pos] + AsElements(ChildrenOf(s[pos])) + s[pos + 1..]
  }

  /** Where everything lands when the element at `pos` is replaced by its children. */
  lemma DissolvedLayout(s: seq<Element>, pos: nat)
    requires pos < |s| && s[pos].Multi?
    ensures var r := Dissolved(s, pos);
            var ch := s[pos].tokens;
      && |r| == |s| - 1 + |ch|
      && (forall p :: 0 <= p < pos ==> r[p] == s[p])
      && (forall k :: 0 <= k < |ch| ==> r[pos + k] == Tok(ch[k]))
      && (forall p :: pos < p < |s| ==> r[p - 1 + |ch|] == s[p])
  {
    var ch := s[pos].tokens;
    var pre, mid, post := s[..pos], AsElements(ch), s[pos + 1..];
    var r := Dissolved(s, pos);
    assert r == pre + mid + post;
    forall k | 0 <= k < |ch| ensures r[pos + k] == Tok(ch[k]) {
      assert r[pos + k] == mid[k];
    }
    forall p | pos < p < |s| ensures r[p - 1 + |ch|] == s[p] {
      assert r[p - 1 + |ch|] == post[p - pos - 1];
    }
  }

  /** Dissolving a multiword token leaves the textual order of tokens as it was. */
  lemma DissolvedFlatten(s: seq<Element>, pos: nat)
    requires pos < |s| && s[pos].Multi?
    ensures Flatten(Dissolved(s, pos)) == Flatten(s)
  {
    var ch := s[pos].tokens;
    CutAt(s, pos);
    FlattenAround(s[..pos], s[pos], s[pos + 1..]);
    FlattenThree(s[..pos], AsElements(ch), s[pos + 1..]);
    FlattenAsElements(ch);
  }

  /**
   Dissolving a multiword token: the length is the old length minus one plus the
   number of children, the children take the removed slot in order, everything
   around is unchanged, and the textual order of tokens (ids and heads included)
   is the same as before.
   */
  lemma DissolveKeepsOrder(s: seq<Element>, pos: nat)
    requires pos < |s| && s[pos].Multi?
    ensures var r := Dissolved(s, pos);
            var ch := s[pos].tokens;
      && |r| == |s| - 1 + |ch|
      && (forall p :: 0 <= p < pos ==> r[p] == s[p])
      && (forall k :: 0 <= k < |ch| ==> r[pos + k] == Tok(ch[k]))
      && (forall p :: pos < p < |s| ==> r[p - 1 + |ch|] == s[p])
      && Flatten(r) == Flatten(s)
  {
    DissolvedLayout(s, pos);
    DissolvedFlatten(s, pos);
  }
}
