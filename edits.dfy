/**
 The small editing rules of the graphical editor, as functions of the sentence:
 making a token the root (`setRoot`), and drawing an arc (`writeArc`): the head
 written, and the relation that the part of speech of the dependent implies
 (`POS2RELmappings`).
 */
module Edits {
  import opened Wrappers
  import opened Conllu

  /** The sentence after `setRoot`: the relation `root` and then head 0 written at the address. */
  function Rooted(s: seq<Element>, addr: Address): seq<Element> {
    WithAttr(WithAttr(s, addr, Deprel, Text("root")), addr, Head, HeadRef(Some(0)))
  }

  /**
   Making a token the root: where the address names a token, it now has head 0 and
   relation `root`, its id and every other field of it are as before, every other
   top-level element is untouched, and for a subtoken the multiword token keeps its
   form and its other children; where it names none, nothing changes.
   */
  lemma RootedMakesRoot(s: seq<Element>, addr: Address)
    ensures var r := Rooted(s, addr);
      && |r| == |s|
      && (AttrAt(s, addr, Head).Some? ==>
            AttrAt(r, addr, Head) == Some(HeadRef(Some(0))) && AttrAt(r, addr, Deprel) == Some(Text("root")))
      && (forall b :: b != Head && b != Deprel ==> AttrAt(r, addr, b) == AttrAt(s, addr, b))
      && IdAt(r, addr) == IdAt(s, addr)
      && (forall p :: 0 <= p < |s| && p != addr.outer ==> r[p] == s[p])
      && (addr.Sub? && AttrAt(s, addr, Head).Some? ==> SiblingsKept(s, r, addr))
      && (AttrAt(s, addr, Head).None? ==> r == s)
  {
    var s1 := WithAttr(s, addr, Deprel, Text("root"));
    WithAttrFrame(s, addr, Deprel, Text("root"));
    WithAttrFrame(s1, addr, Head, HeadRef(Some(0)));
    if addr.Sub? && AttrAt(s, addr, Head).Some? {
      SiblingsKeptTrans(s, s1, Rooted(s, addr), addr);
    }
    WithAttrReadsBack(s, addr, Deprel, Text("root"));
    WithAttrReadsBack(s1, addr, Head, HeadRef(Some(0)));
    if AttrAt(s, addr, Head).None? {
      assert AttrAt(s, addr, Deprel).None?;
    }
  }

  /**
   The relation `writeArc` writes along with the head, as written: the mapping is
   looked up with the part of speech of the top-level element at `outerIndex`,
   which for a subtoken is its multiword token, which has none.
   */
  function AutoDeprel(s: seq<Element>, addr: Address): (r: Option<string>)
    ensures r.Some? <==> addr.outer < |s| && s[addr.outer].Tok? && s[addr.outer].token.upostag in {"PUNCT", "DET", "CCONJ", "SCONJ"}
    ensures r.Some? ==> r == Pos2Rel(s[addr.outer].token.upostag)
  {
    if addr.outer >= |s| then None
    else match UposOf(s[addr.outer])
      case Some(u) => Pos2Rel(u)
      case None => None
  }

  /** The sentence after `writeArc(source, target)`: the head of the target set to the source's number, then the implied relation if there is one. */
  function ArcWritten(s: seq<Element>, addr: Address, source: int): seq<Element> {
    var s1 := WithAttr(s, addr, Head, HeadRef(Some(source)));
    match AutoDeprel(s, addr)
    case Some(rel) => WithAttr(s1, addr, Deprel, Text(rel))
    case None => s1
  }

  /**
   Drawing an arc to a token: its head is now the source, its relation is the one
   implied by its part of speech when there is one and is unchanged otherwise, and
   nothing else in the sentence changes: not its id, not its other fields, not the
   other top-level elements, and for a subtoken not the form and the other children
   of its multiword token.
   */
  lemma ArcWrittenEffect(s: seq<Element>, addr: Address, source: int)
    ensures var r := ArcWritten(s, addr, source);
      && |r| == |s|
      && (AttrAt(s, addr, Head).Some? ==> AttrAt(r, addr, Head) == Some(HeadRef(Some(source))))
      && (AttrAt(s, addr, Head).Some? ==>
            AttrAt(r, addr, Deprel) == match AutoDeprel(s, addr) case Some(rel) => Some(Text(rel)) case None => AttrAt(s, addr, Deprel))
      && (forall b :: b != Head && b != Deprel ==> AttrAt(r, addr, b) == AttrAt(s, addr, b))
      && IdAt(r, addr) == IdAt(s, addr)
      && (forall p :: 0 <= p < |s| && p != addr.outer ==> r[p] == s[p])
      && (addr.Sub? && AttrAt(s, addr, Head).Some? ==> SiblingsKept(s, r, addr))
      && (AttrAt(s, addr, Head).None? ==> r == s)
  {
    var s1 := WithAttr(s, addr, Head, HeadRef(Some(source)));
    WithAttrFrame(s, addr, Head, HeadRef(Some(source)));
    WithAttrReadsBack(s, addr, Head, HeadRef(Some(source)));
    if AttrAt(s, addr, Head).None? {
      assert AttrAt(s, addr, Deprel).None?;
    }
    match AutoDeprel(s, addr)
    case Some(rel) =>
      WithAttrFrame(s1, addr, Deprel, Text(rel));
      WithAttrReadsBack(s1, addr, Deprel, Text(rel));
      if addr.Sub? && AttrAt(s, addr, Head).Some? {
        SiblingsKeptTrans(s, s1, ArcWritten(s, addr, source), addr);
      }
    case None =>
  }

  /** Two writes at the same subtoken address, one after the other, keep the multiword token's form and its other children. */
  lemma SiblingsKeptTrans(s: seq<Element>, s1: seq<Element>, s2: seq<Element>, addr: Address)
    requires SiblingsKept(s, s1, addr) && SiblingsKept(s1, s2, addr)
    ensures SiblingsKept(s, s2, addr)
  {
  }
}
