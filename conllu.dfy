/**
 The parsed CoNLL-U sentence the graphical editor works on, and the meaning of
 each of its edits as a function from the old top-level sequence to the new one.
 The editor class in module Editor performs the same edits step by step and is
 proved to end in exactly these states.
 */
module Conllu {
  import opened Wrappers
  import JsStrings

  /** A syntactic word: one CoNLL-U row (`lemmaText` is its LEMMA column; `lemma` is a Dafny keyword). `head` is `None` where the source leaves it undefined. */
  datatype Token = Token(id: int, form: string, lemmaText: string, upostag: string, xpostag: string,
                         feats: string, head: Option<int>, deprel: string, deps: string, misc: string)

  /** A top-level element of a sentence: a token, or a multiword token with its surface form and its child tokens. */
  datatype Element = Tok(token: Token) | Multi(form: string, tokens: seq<Token>)

  /** `{isSubtoken, outerIndex, innerIndex}`: a top-level position, or a child of the multiword at `outer`. */
  datatype Address = Top(outer: nat) | Sub(outer: nat, inner: nat)

  /** The attribute names `changeConlluAttr` is called with. */
  datatype Attr = Form | Lemma | UPosTag | XPosTag | Feats | Head | Deprel | Deps | Misc

  /** A field value: text for the string fields, an optional number for `head`. */
  datatype Value = Text(text: string) | HeadRef(head: Option<int>)

  /** The value has the kind of the field it is written to. */
  predicate Fits(a: Attr, v: Value) {
    v.HeadRef? <==> a == Head
  }

  /** `token[attrName]`. */
  function GetAttr(t: Token, a: Attr): (v: Value)
    ensures Fits(a, v)
  {
    match a
    case Form => Text(t.form)
    case Lemma => Text(t.lemmaText)
    case UPosTag => Text(t.upostag)
    case XPosTag => Text(t.xpostag)
    case Feats => Text(t.feats)
    case Head => HeadRef(t.head)
    case Deprel => Text(t.deprel)
    case Deps => Text(t.deps)
    case Misc => Text(t.misc)
  }

  /** `token[attrName] = newVal`: the named field holds the new value, the id and every other field are untouched. */
  function SetAttr(t: Token, a: Attr, v: Value): (r: Token)
    requires Fits(a, v)
    ensures r.id == t.id
    ensures GetAttr(r, a) == v
    ensures forall b :: b != a ==> GetAttr(r, b) == GetAttr(t, b)
  {
    match a
    case Form => t.(form := v.text)
    case Lemma => t.(lemmaText := v.text)
    case UPosTag => t.(upostag := v.text)
    case XPosTag => t.(xpostag := v.text)
    case Feats => t.(feats := v.text)
    case Head => t.(head := v.head)
    case Deprel => t.(deprel := v.text)
    case Deps => t.(deps := v.text)
    case Misc => t.(misc := v.text)
  }

  /**
   The value `changeConlluAttr` reads at an address: `tokens[outer][attr]`, or
   `tokens[outer].tokens[inner][attr]` for a subtoken. `None` where the read throws
   (a position past the end, a subtoken address whose element has no children) and
   where it would read a field other than the form of a multiword token, which the
   model does not give multiword tokens.
   */
  function AttrAt(s: seq<Element>, addr: Address, a: Attr): Option<Value> {
    match addr
    case Top(o) =>
      if o >= |s| then None
      else (match s[o]
            case Tok(t) => Some(GetAttr(t, a))
            case Multi(f, _) => if a == Form then Some(Text(f)) else None)
    case Sub(o, i) =>
      if o < |s| && s[o].Multi? && i < |s[o].tokens| then Some(GetAttr(s[o].tokens[i], a)) else None
  }

  /** The id of the token an address names: a top-level token or a child of a multiword token; `None` where it names no token. */
  function IdAt(s: seq<Element>, addr: Address): Option<int> {
    match addr
    case Top(o) => if o < |s| && s[o].Tok? then Some(s[o].token.id) else None
    case Sub(o, i) => if o < |s| && s[o].Multi? && i < |s[o].tokens| then Some(s[o].tokens[i].id) else None
  }

  /** The sentence after `changeConlluAttr` has stored `v`; unchanged where the source throws. */
  function WithAttr(s: seq<Element>, addr: Address, a: Attr, v: Value): seq<Element>
    requires Fits(a, v)
  {
    match addr
    case Top(o) =>
      if o >= |s| then s
      else (match s[o]
            case Tok(t) => s[o := Tok(SetAttr(t, a, v))]
            case Multi(f, ch) => if a == Form then s[o := Multi(v.text, ch)] else s)
    case Sub(o, i) =>
      if o < |s| && s[o].Multi? && i < |s[o].tokens| then
        s[o := Multi(s[o].form, s[o].tokens[i := SetAttr(s[o].tokens[i], a, v)])]
      else s
  }

  /** After a write that resolves, reading the same slot gives the value written; a write that does not resolve changes nothing. */
  lemma WithAttrReadsBack(s: seq<Element>, addr: Address, a: Attr, v: Value)
    requires Fits(a, v)
    ensures AttrAt(s, addr, a).Some? ==> AttrAt(WithAttr(s, addr, a, v), addr, a) == Some(v)
    ensures AttrAt(s, addr, a).None? ==> WithAttr(s, addr, a, v) == s
  {
  }

  /** A write changes only the addressed slot: the length, every other top-level element, every other child and every other attribute stay as they were. */
  lemma WithAttrFrame(s: seq<Element>, addr: Address, a: Attr, v: Value)
    requires Fits(a, v)
    ensures |WithAttr(s, addr, a, v)| == |s|
    ensures forall p :: 0 <= p < |s| && p != addr.outer ==> WithAttr(s, addr, a, v)[p] == s[p]
    ensures forall b :: b != a ==> AttrAt(WithAttr(s, addr, a, v), addr, b) == AttrAt(s, addr, b)
    ensures IdAt(WithAttr(s, addr, a, v), addr) == IdAt(s, addr)
    ensures addr.Sub? && AttrAt(s, addr, a).Some? ==> SiblingsKept(s, WithAttr(s, addr, a, v), addr)
  {
  }

  /** At the multiword token a subtoken address names, `r` keeps the surface form, the number of children and every child other than the addressed one. */
  ghost predicate SiblingsKept(s: seq<Element>, r: seq<Element>, addr: Address) {
    && addr.Sub? && addr.outer < |s| && addr.outer < |r| && s[addr.outer].Multi? && r[addr.outer].Multi?
    && r[addr.outer].form == s[addr.outer].form
    && |r[addr.outer].tokens| == |s[addr.outer].tokens|
    && forall j :: 0 <= j < |s[addr.outer].tokens| && j != addr.inner ==> r[addr.outer].tokens[j] == s[addr.outer].tokens[j]
  }

  /** The undo entry of a deprel or POS edit: writing the returned old value back gives the original sentence, and the redo gives the edited one again. */
  lemma WriteBackRestores(s: seq<Element>, addr: Address, a: Attr, v: Value)
    requires Fits(a, v) && AttrAt(s, addr, a).Some?
    ensures var edited := WithAttr(s, addr, a, v);
            && WithAttr(edited, addr, a, AttrAt(s, addr, a).value) == s
            && WithAttr(WithAttr(edited, addr, a, AttrAt(s, addr, a).value), addr, a, v) == edited
  {
    match addr
    case Top(o) =>
      if s[o].Tok? {
        SetAttrBack(s[o].token, a, v);
      }
    case Sub(o, i) =>
      var ch, t := s[o].tokens, s[o].tokens[i];
      var t1 := SetAttr(t, a, v);
      var edited := WithAttr(s, addr, a, v);
      assert edited == s[o := Multi(s[o].form, ch[i := t1])];
      SetAttrBack(t, a, v);
      assert ch[i := t1][i := t] == ch;
      assert edited[o].tokens[i] == t1;
      assert WithAttr(edited, addr, a, GetAttr(t, a)) == s[o := Multi(s[o].form, ch)];
      assert s[o := Multi(s[o].form, ch)] == s;
  }

  /** On one token: writing the old value back undoes a write. */
  lemma SetAttrBack(t: Token, a: Attr, v: Value)
    requires Fits(a, v)
    ensures SetAttr(SetAttr(t, a, v), a, GetAttr(t, a)) == t
  {
  }

  /** Two writes at one address followed by their write-backs in reverse order: the original sentence again. Used for the head-and-deprel edit of `writeArc`. */
  lemma TwoWritesBack(s: seq<Element>, addr: Address, a1: Attr, v1: Value, a2: Attr, v2: Value)
    requires Fits(a1, v1) && Fits(a2, v2) && AttrAt(s, addr, a1).Some?
    requires AttrAt(WithAttr(s, addr, a1, v1), addr, a2).Some?
    ensures var s1 := WithAttr(s, addr, a1, v1);
            var s2 := WithAttr(s1, addr, a2, v2);
            WithAttr(WithAttr(s2, addr, a2, AttrAt(s1, addr, a2).value), addr, a1, AttrAt(s, addr, a1).value) == s
  {
    var s1 := WithAttr(s, addr, a1, v1);
    WriteBackRestores(s1, addr, a2, v2);
    WriteBackRestores(s, addr, a1, v1);
  }

  // ---------------------------------------------------------------------------
  // Small rules

  /** `POS2RELmappings` of `writeArc`: the relation a dependent with this part of speech receives automatically. */
  function Pos2Rel(upos: string): (r: Option<string>)
    ensures r.Some? <==> upos in {"PUNCT", "DET", "CCONJ", "SCONJ"}
  {
    if upos == "PUNCT" then Some("punct")
    else if upos == "DET" then Some("det")
    else if upos == "CCONJ" then Some("cc")
    else if upos == "SCONJ" then Some("mark")
    else None
  }

  /** `thisToken.upostag` for a top-level element; a multiword token has none. */
  function UposOf(e: Element): Option<string> {
    match e
    case Tok(t) => Some(t.upostag)
    case Multi(_, _) => None
  }

  /** The surface form of a top-level element. */
  function FormOf(e: Element): string {
    match e
    case Tok(t) => t.form
    case Multi(f, _) => f
  }

  /** `element.form = f`. */
  function WithForm(e: Element, f: string): (r: Element)
    ensures FormOf(r) == f && r.Tok? == e.Tok?
  {
    match e
    case Tok(t) => Tok(t.(form := f))
    case Multi(_, ch) => Multi(f, ch)
  }

  /** Whether some top-level element is a multiword token (`thereIsSupertoken`). */
  ghost predicate HasSupertoken(s: seq<Element>) {
    exists i :: 0 <= i < |s| && s[i].Multi?
  }

  /** The top-level element at `i` is a token whose id is `n` (the test `token.id === wfIndex`). */
  predicate TokenWithId(s: seq<Element>, i: int, n: int) {
    0 <= i < |s| && s[i].Tok? && s[i].token.id == n
  }

  // ---------------------------------------------------------------------------
  // Dense sentences and the textual order of tokens

  /** Every element is a token and its id is its position plus one. */
  ghost predicate Dense(s: seq<Element>) {
    forall p :: 0 <= p < |s| ==> s[p].Tok? && s[p].token.id == p + 1
  }

  /** The tokens of the sentence in textual order, children of multiword tokens in place of their group. */
  function Flatten(s: seq<Element>): seq<Token> {
    if s == [] then [] else TokensOf(s[0]) + Flatten(s[1..])
  }

  /** The tokens an element contributes to the textual order. */
  function TokensOf(e: Element): seq<Token> {
    match e
    case Tok(t) => [t]
    case Multi(_, ch) => ch
  }

  /** Textual order distributes over concatenation. */
  lemma {:induction false} FlattenAppend(a: seq<Element>, b: seq<Element>)
    ensures Flatten(a + b) == Flatten(a) + Flatten(b)
  {
    if a == [] {
      assert a + b == b;
    } else {
      var ab := a + b;
      assert ab[1..] == a[1..] + b;
      FlattenAppend(a[1..], b);
    }
  }

  /** A sequence is what comes before position `o`, the element at `o`, and what comes after it. */
  lemma CutAt(r: seq<Element>, o: nat)
    requires o < |r|
    ensures r == r[..o] + [r[o]] + r[o + 1..]
  {
  }

  /** Tokens wrapped one by one as top-level elements. */
  function AsElements(ts: seq<Token>): (r: seq<Element>)
    ensures |r| == |ts| && forall k :: 0 <= k < |ts| ==> r[k] == Tok(ts[k])
  {
    seq(|ts|, k requires 0 <= k < |ts| => Tok(ts[k]))
  }

  /** Wrapping tokens one by one does not change the textual order. */
  lemma {:induction false} FlattenAsElements(ts: seq<Token>)
    ensures Flatten(AsElements(ts)) == ts
  {
    if ts != [] {
      FlattenAsElements(ts[1..]);
      assert AsElements(ts)[1..] == AsElements(ts[1..]);
      assert [ts[0]] + ts[1..] == ts;
    }
  }
}
