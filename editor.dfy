/**
 The sentence the graphical editor changes in place. Each method performs one edit
 the way the editor does it (field writes, `splice` on the element array and on the
 children of a multiword token, renumbering loops over every element) and is proved
 to end in the state that the functions of modules Conllu, Retokenise and Edits
 describe. Where the editor would throw (an address that names nothing) the model
 leaves the sentence unchanged and says so in its result.
 */
module Editor {
  import opened Wrappers
  import opened Conllu
  import opened Retokenise
  import opened Edits
  import JsStrings

  /** What `mergeNodes` did. */
  datatype MergeOutcome =
    | Merged
    | SubtokenRefused    // "Sorry, merging subtokens is not supported!"
    | NoNeighbour        // "Probably wrong direction?"
    | NotTwoTokens       // supertoken mode over a multiword token, outside the model

  class Sentence {
    /** `sent.tokens`: the top-level elements in sentence order. */
    var tokens: seq<Element>

    constructor (init: seq<Element>)
      ensures tokens == init
    {
      tokens := init;
    }

    /**
     `changeConlluAttr(sent, indices, attrName, newVal)`: returns the value held at
     the addressed slot and stores the new one there. An address that names no slot
     gives no previous value and changes nothing.
     */
    method ChangeAttr(addr: Address, a: Attr, v: Value) returns (previous: Option<Value>)
      requires Fits(a, v)
      modifies this
      ensures previous == AttrAt(old(tokens), addr, a)
      ensures tokens == WithAttr(old(tokens), addr, a, v)
    {
      previous := AttrAt(tokens, addr, a);
      match addr
      case Top(o) =>
        if o < |tokens| {
          match tokens[o]
          case Tok(t) =>
            tokens := tokens[o := Tok(SetAttr(t, a, v))];
          case Multi(f, ch) =>
            if a == Form {
              tokens := tokens[o := Multi(v.text, ch)];
            }
        }
      case Sub(o, i) =>
        if o < |tokens| && tokens[o].Multi? && i < |tokens[o].tokens| {
          var ch := tokens[o].tokens;
          ch := ch[i := SetAttr(ch[i], a, v)];
          tokens := tokens[o := Multi(tokens[o].form, ch)];
        }
    }

    /**
     The sentence-side scan of `findConlluId`: the position of the last top-level
     token whose id is `wfIndex` (the loop keeps overwriting), or none when no
     token has that id.
     */
    method FindConlluId(wfIndex: int) returns (addr: Option<Address>)
      ensures addr.Some? ==> addr.value.Top? && TokenWithId(tokens, addr.value.outer, wfIndex)
      ensures addr.Some? ==> forall j :: addr.value.outer < j < |tokens| ==> !TokenWithId(tokens, j, wfIndex)
      ensures addr.None? ==> forall j :: 0 <= j < |tokens| ==> !TokenWithId(tokens, j, wfIndex)
    {
      addr := None;
      var i := 0;
      while i < |tokens|
        invariant 0 <= i <= |tokens|
        invariant addr.Some? ==> addr.value.Top? && addr.value.outer < i && TokenWithId(tokens, addr.value.outer, wfIndex)
        invariant addr.Some? ==> forall j :: addr.value.outer < j < i ==> !TokenWithId(tokens, j, wfIndex)
        invariant addr.None? ==> forall j :: 0 <= j < i ==> !TokenWithId(tokens, j, wfIndex)
      {
        if tokens[i].Tok? && tokens[i].token.id == wfIndex {
          addr := Some(Top(i));
        }
        i := i + 1;
      }
    }

    /** `thereIsSupertoken(sent)`: whether some top-level element is a multiword token. */
    method ThereIsSupertoken() returns (found: bool)
      ensures found <==> HasSupertoken(tokens)
    {
      found := false;
      var n := 0;
      while n < |tokens|
        invariant 0 <= n <= |tokens|
        invariant found <==> exists i :: 0 <= i < n && tokens[i].Multi?
      {
        if tokens[n].Multi? {
          found := true;
        }
        n := n + 1;
      }
    }

    /**
     `splitTokens(text, sent, indices)`: the addressed token takes piece 0 of the
     text as its form, a new token with its id and piece 1 is spliced in after it,
     and then every element is renumbered by `shiftIndices`. Returns whether the
     address named a token that can be split; otherwise nothing changes.
     */
    method SplitTokens(text: string, addr: Address) returns (split: bool)
      requires ' ' in text
      modifies this
      ensures split == SplitTarget(old(tokens), addr)
      ensures split ==> tokens == SplitResult(old(tokens), addr, text)
      ensures !split ==> tokens == old(tokens)
    {
      if !SplitTarget(tokens, addr) {
        return false;
      }
      var pieces := SplitPieces(text);
      ghost var ins := Inserted(tokens, addr, pieces.0, pieces.1);
      match addr {
        case Top(o) =>
          var t := tokens[o].token;
          ghost var s0 := tokens;
          tokens := tokens[o := Tok(t.(form := pieces.0))];
          var rest := NewToken(t.id, pieces.1);
          assert tokens[..o + 1] == s0[..o] + [Tok(t.(form := pieces.0))];
          tokens := tokens[..o + 1] + [Tok(rest)] + tokens[o + 1..];
          assert tokens == s0[..o] + [Tok(t.(form := pieces.0)), Tok(rest)] + s0[o + 1..];
        case Sub(o, i) =>
          var ch := tokens[o].tokens;
          var c := ch[i];
          ghost var ch0 := ch;
          ch := ch[i := c.(form := pieces.0)];
          var rest := NewToken(c.id, pieces.1);
          assert ch[..i + 1] == ch0[..i] + [c.(form := pieces.0)];
          ch := ch[..i + 1] + [rest] + ch[i + 1..];
          assert ch == ch0[..i] + [c.(form := pieces.0), rest] + ch0[i + 1..];
          tokens := tokens[o := Multi(tokens[o].form, ch)];
      }
      assert tokens == ins;
      ShiftAll(addr);
      return true;
    }

    /** The renumbering loop of `splitTokens`: `shiftIndices` on every token and on every child of every multiword token. */
    method ShiftAll(addr: Address)
      modifies this
      ensures tokens == Shifted(old(tokens), addr)
    {
      ghost var s := tokens;
      var i := 0;
      while i < |tokens|
        invariant 0 <= i <= |tokens| == |s|
        invariant forall k :: 0 <= k < i ==> tokens[k] == ShiftElement(s[k], k, addr)
        invariant forall k :: i <= k < |tokens| ==> tokens[k] == s[k]
      {
        match tokens[i] {
          case Tok(t) =>
            tokens := tokens[i := Tok(ShiftToken(t, i > addr.outer, addr.outer))];
          case Multi(f, ch) =>
            var shifted := ShiftChildrenLoop(ch, i, addr);
            tokens := tokens[i := Multi(f, shifted)];
        }
        i := i + 1;
      }
      assert tokens == Shifted(s, addr);
    }

    /** The inner loop of the renumbering over the children `ch` of the multiword token at position `i`. */
    static method ShiftChildrenLoop(ch: seq<Token>, i: nat, addr: Address) returns (r: seq<Token>)
      ensures r == ShiftChildren(ch, i, addr)
    {
      r := ch;
      var j := 0;
      while j < |r|
        invariant 0 <= j <= |r| == |ch|
        invariant forall k :: 0 <= k < j ==> r[k] == ShiftToken(ch[k], BumpsChild(i, k, addr), addr.outer)
        invariant forall k :: j <= k < |r| ==> r[k] == ch[k]
      {
        r := r[j := ShiftToken(r[j], BumpsChild(i, j, addr), addr.outer)];
        j := j + 1;
      }
      assert r == ShiftChildren(ch, i, addr);
    }

    /**
     `mergeNodes(toMerge, side, how)`. A subtoken address is refused; a node without
     a neighbour on that side is left alone. In subtoken mode the node takes the
     merged form, the neighbour is spliced out and `renumberNodes` runs over every
     element; in supertoken mode the two elements become the children of a new
     multiword token with the merged form.
     */
    method MergeNodes(addr: Address, side: Side, how: MergeMode) returns (outcome: MergeOutcome)
      modifies this
      ensures addr.Sub? ==> outcome == SubtokenRefused
      ensures addr.Top? && !HasNeighbour(old(tokens), addr.outer, side) ==> outcome == NoNeighbour
      ensures outcome == Merged <==>
                addr.Top? && HasNeighbour(old(tokens), addr.outer, side)
                && (how == SubtokenMode || PairOfTokens(old(tokens), addr.outer, side))
      ensures outcome != Merged ==> tokens == old(tokens)
      ensures outcome == Merged && how == SubtokenMode ==>
                HasNeighbour(old(tokens), addr.outer, side) && tokens == SubtokenMerge(old(tokens), addr.outer, side)
      ensures outcome == Merged && how == SupertokenMode ==>
                HasNeighbour(old(tokens), addr.outer, side) && PairOfTokens(old(tokens), addr.outer, side)
                && tokens == SupertokenMerge(old(tokens), addr.outer, side)
    {
      if addr.Sub? {
        return SubtokenRefused;
      }
      var nodeId := addr.outer;
      if !HasNeighbour(tokens, nodeId, side) {
        return NoNeighbour;
      }
      var otherId := OtherIndex(nodeId, side) as nat;
      var newForm := MergedForm(tokens, nodeId, side);
      match how
      case SubtokenMode =>
        ghost var s := tokens;
        tokens := tokens[nodeId := WithForm(tokens[nodeId], newForm)];
        tokens := tokens[..otherId] + tokens[otherId + 1..];
        assert tokens == Without(s[nodeId := WithForm(s[nodeId], newForm)], otherId);
        RenumberNodes(nodeId, otherId, side);
        return Merged;
      case SupertokenMode =>
        if !PairOfTokens(tokens, nodeId, side) {
          return NotTwoTokens;
        }
        var min := LeftOfPair(nodeId, side) as nat;
        var pair := [tokens[min].token, tokens[min + 1].token];
        tokens := tokens[..min] + tokens[min + 2..];
        tokens := tokens[..min] + [Multi(newForm, pair)] + tokens[min..];
        return Merged;
    }

    /** `renumberNodes(nodeId, otherId, sent, side)`: the head correction and the id renumbering, element by element. */
    method RenumberNodes(nodeId: nat, otherId: nat, side: Side)
      modifies this
      ensures tokens == Renumbered(old(tokens), nodeId, otherId, side)
    {
      ghost var s := tokens;
      var n := 0;
      while n < |tokens|
        invariant 0 <= n <= |tokens| == |s|
        invariant forall k :: 0 <= k < n ==> tokens[k] == RenumberElement(s[k], k, nodeId, otherId, side)
        invariant forall k :: n <= k < |tokens| ==> tokens[k] == s[k]
      {
        if tokens[n].Tok? {
          var tok := tokens[n].token;
          if tok.head.Some? && ((side == Right && tok.head.value > nodeId + 1) || (side == Left && tok.head.value > otherId)) {
            tok := tok.(head := Some(tok.head.value - 1));
          }
          if (side == Right && n > nodeId) || (side == Left && n >= otherId) {
            tok := tok.(id := tok.id - 1);
          }
          tokens := tokens[n := Tok(tok)];
        }
        n := n + 1;
      }
      assert tokens == Renumbered(s, nodeId, otherId, side);
    }

    /**
     `removeSup(st)`: the element at `pos` is spliced out and its children are
     spliced in one by one at `pos`, `pos + 1`, ... A plain token has no children
     and is just removed. A position past the end names nothing and changes nothing.
     */
    method RemoveSup(pos: nat) returns (removed: bool)
      modifies this
      ensures removed == (pos < |old(tokens)|)
      ensures removed ==> tokens == Dissolved(old(tokens), pos)
      ensures !removed ==> tokens == old(tokens)
    {
      if pos >= |tokens| {
        return false;
      }
      ghost var s := tokens;
      var subTokens := ChildrenOf(tokens[pos]);
      tokens := tokens[..pos] + tokens[pos + 1..];
      var n := 0;
      while n < |subTokens|
        invariant 0 <= n <= |subTokens|
        invariant tokens == s[..pos] + AsElements(subTokens[..n]) + s[pos + 1..]
      {
        assert AsElements(subTokens[..n + 1]) == AsElements(subTokens[..n]) + [Tok(subTokens[n])];
        tokens := tokens[..pos + n] + [Tok(subTokens[n])] + tokens[pos + n..];
        n := n + 1;
      }
      assert subTokens[..n] == subTokens;
      return true;
    }

    /**
     `writeWF(wfInp)`: the typed text, trimmed, either retokenises the sentence (it
     holds a space) or becomes the form of the addressed token or subtoken.
     */
    method WriteWF(addr: Address, input: string) returns (newToken: string)
      modifies this
      ensures newToken == JsStrings.Trim(input)
      ensures ' ' in newToken && SplitTarget(old(tokens), addr) ==> tokens == SplitResult(old(tokens), addr, newToken)
      ensures ' ' in newToken && !SplitTarget(old(tokens), addr) ==> tokens == old(tokens)
      ensures ' ' !in newToken ==> tokens == WithAttr(old(tokens), addr, Form, Text(newToken))
    {
      newToken := JsStrings.Trim(input);
      if ' ' in newToken {
        var _ := SplitTokens(newToken, addr);
      } else {
        var _ := ChangeAttr(addr, Form, Text(newToken));
      }
    }

    /** `setRoot(wf)` with the address passed as an address: relation `root`, then head 0. */
    method SetRoot(addr: Address)
      modifies this
      ensures tokens == Rooted(old(tokens), addr)
    {
      var _ := ChangeAttr(addr, Deprel, Text("root"));
      var _ := ChangeAttr(addr, Head, HeadRef(Some(0)));
    }

    /** `writeDeprel(deprelInp, indices)` with the address passed as an address; the old relation is what its undo entry writes back. */
    method WriteDeprel(addr: Address, deprel: string) returns (previous: Option<Value>)
      modifies this
      ensures previous == AttrAt(old(tokens), addr, Deprel)
      ensures tokens == WithAttr(old(tokens), addr, Deprel, Text(deprel))
    {
      previous := ChangeAttr(addr, Deprel, Text(deprel));
    }

    /** `writePOS(posInp, indices)` with the address passed as an address; the old tag is what its undo entry writes back. */
    method WritePOS(addr: Address, pos: string) returns (previous: Option<Value>)
      modifies this
      ensures previous == AttrAt(old(tokens), addr, UPosTag)
      ensures tokens == WithAttr(old(tokens), addr, UPosTag, Text(pos))
    {
      previous := ChangeAttr(addr, UPosTag, Text(pos));
    }

    /**
     `writeArc(source, target)`: the target's head becomes the source's number and,
     when the part of speech read at `outerIndex` implies a relation, that relation
     is written too. Returns the head the target had.
     */
    method WriteArc(addr: Address, sourceIndex: int) returns (previous: Option<Value>)
      modifies this
      ensures previous == AttrAt(old(tokens), addr, Head)
      ensures tokens == ArcWritten(old(tokens), addr, sourceIndex)
    {
      var rel := AutoDeprel(tokens, addr);
      previous := ChangeAttr(addr, Head, HeadRef(Some(sourceIndex)));
      match rel
      case Some(r) =>
        var _ := ChangeAttr(addr, Deprel, Text(r));
      case None =>
    }
  }
}
