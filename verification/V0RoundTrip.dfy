/** Demangling what the mangler prints: back references included, for every tree and
    every choice of disambiguators, the text that comes back is the tree's reading. */
module V0RoundTrip {
  import opened Text
  import opened V0Parser
  import opened V0Syntax
  import opened V0Match
  import opened V0Mangler
  import opened V0Levels

  // ---- pieces of a string ------------------------------------------------

  /** text stands in s at n. */
  predicate Sits(s: string, n: nat, text: string) {
    n + |text| <= |s| && s[n..n + |text|] == text
  }

  lemma SitsSplit(s: string, n: nat, a: string, b: string)
    requires Sits(s, n, a + b)
    ensures Sits(s, n, a) && Sits(s, n + |a|, b)
    ensures n + |a| + |b| <= |s|
  {
    var whole := s[n..n + |a + b|];
    assert s[n..n + |a|] == whole[..|a|] == a;
    assert s[n + |a|..n + |a| + |b|] == whole[|a|..] == b;
  }

  lemma SitsAt(s: string, n: nat, text: string)
    requires Sits(s, n, text) && text != ""
    ensures At(s, n, text[0])
  {
    assert s[n] == s[n..n + |text|][0];
  }

  /** No underscore follows at n. */
  predicate Ends(s: string, n: nat) {
    n <= |s| && !At(s, n, '_')
  }

  predicate Lettered(text: string) {
    text != "" && (IsLower(text[0]) || IsUpper(text[0]))
  }

  lemma LetteredEnds(s: string, n: nat, text: string)
    requires Sits(s, n, text) && Lettered(text)
    ensures Ends(s, n)
  {
    SitsAt(s, n, text);
  }

  // ---- numbers and names -------------------------------------------------

  lemma UnderscoreIs(s: string, p: nat, q: nat)
    requires p <= q < |s| && s[q] == '_' && forall i :: p <= i < q ==> s[i] != '_'
    ensures Underscore(s, p) == q
  {
    var u := Underscore(s, p);
    assert u <= q;
  }

  lemma Text62Reads(s: string, p: nat, n: nat)
    requires p <= |s| && Sits(s, p, Text62(n))
    ensures Base62(s, p) == Ok(n, p + |Text62(n)|)
  {
    hide Value62;
    var text := Text62(n);
    var q := p + |text| - 1;
    assert forall i :: 0 <= i < |text| ==> s[p + i] == s[p..p + |text|][i] == text[i];
    assert s[q] == text[|text| - 1] == '_';
    forall i | p <= i < q
      ensures s[i] != '_'
    {
      assert s[i] == text[i - p] == Digits62(n - 1)[i - p];
    }
    UnderscoreIs(s, p, q);
    if n > 0 {
      SitsSplit(s, p, Digits62(n - 1), "_");
      assert q == p + |Digits62(n - 1)|;
    }
  }

  lemma RefEmits(s: string, n: nat, off: nat)
    requires Sits(s, n, RefCode(off)) && off < n
    ensures RefAt(s, n) == Ok(off, n + |RefCode(off)|)
  {
    hide Base62, Text62;
    SitsSplit(s, n, "B", Text62(off));
    SitsAt(s, n, "B");
    Text62Reads(s, n + 1, off);
  }

  lemma NumberEmits(s: string, p: nat, n: nat)
    requires Sits(s, p, Text62(n))
    ensures NumberAt(s, p, n) == Found(p + |Text62(n)|, 0)
  {
    Text62Reads(s, p, n);
  }

  lemma SlotEmits(s: string, n: nat, m: Maybe)
    requires Sits(s, n, SlotText(m)) && !At(s, n + |SlotText(m)|, 's')
    ensures SlotAt(s, n) == Found(n + |SlotText(m)|, 0)
  {
    hide Base62, Text62;
    if m.Yes? {
      SitsSplit(s, n, "s", Text62(m.n));
      SitsAt(s, n, "s");
      Text62Reads(s, n + 1, m.n);
    }
  }

  lemma DisEmits(s: string, n: nat, dis: nat)
    requires Sits(s, n, DisText(dis)) && !At(s, n + |DisText(dis)|, 's')
    ensures DisAt(s, n, dis) == Found(n + |DisText(dis)|, 0)
  {
    hide Base62, Text62;
    if dis > 0 {
      SitsSplit(s, n, "s", Text62(dis - 1));
      SitsAt(s, n, "s");
      Text62Reads(s, n + 1, dis - 1);
    }
  }

  lemma MaybeEmits(s: string, n: nat, tag: char, m: Maybe)
    requires Sits(s, n, MaybeCode(tag, m)) && (m.No? ==> !At(s, n, tag))
    ensures MaybeAt(s, n, tag, m) == Found(n + |MaybeCode(tag, m)|, 0)
  {
    hide NumberAt, Text62;
    if m.Yes? {
      SitsSplit(s, n, [tag], Text62(m.n));
      SitsAt(s, n, [tag]);
      NumberEmits(s, n + 1, m.n);
    }
  }

  lemma NameHead(n: Name)
    ensures var c := NameCode(n)[0]; c == 'u' || IsDigit(c)
  {
  }

  lemma SitsIs(s: string, n: nat, text: string)
    requires Sits(s, n, text)
    ensures n + |text| <= |s| && s[n..n + |text|] == text
  {
  }

  lemma DecHead(n: nat)
    ensures IsDigit(Dec(n)[0])
  {
  }

  /** The underscore between a length and a name that could be mistaken for more length. */
  function Separator(text: string): string {
    if text != "" && (IsDigit(text[0]) || text[0] == '_') then "_" else ""
  }

  lemma NameEmits(s: string, p: nat, n: Name)
    requires Sits(s, p, NameCode(n)) && Ends(s, p + |NameCode(n)|)
    ensures NameAt(s, p, n) == Found(p + |NameCode(n)|, 0)
  {
    hide Dec, NameAt, Sits;
    var puny, len, rest := if n.puny then "u" else "", Dec(|n.text|), Separator(n.text) + n.text;
    var a := p + |puny|;
    assert NameCode(n) == puny + (len + rest);
    SitsSplit(s, p, puny, len + rest);
    SitsSplit(s, a, len, rest);
    SitsAt(s, a, len);
    DecHead(|n.text|);
    if n.puny {
      SitsAt(s, p, "u");
    }
    NameMatches(s, p, n);
  }

  lemma NameMatches(s: string, p: nat, n: Name)
    requires At(s, p, 'u') == n.puny
    requires var a, rest := if n.puny then p + 1 else p, Separator(n.text) + n.text;
      var e := a + |Dec(|n.text|)|;
      && a <= |s| && Sits(s, a, Dec(|n.text|)) && Sits(s, e, rest) && Ends(s, e + |rest|)
    ensures var a, rest := if n.puny then p + 1 else p, Separator(n.text) + n.text;
      NameAt(s, p, n) == Found(a + |Dec(|n.text|)| + |rest|, 0)
  {
    hide Dec, Sits, Separator;
    var a := if n.puny then p + 1 else p;
    SitsIs(s, a, Dec(|n.text|));
    NameBody(s, a + |Dec(|n.text|)|, n.text);
  }

  lemma NameBody(s: string, e: nat, text: string)
    requires Sits(s, e, Separator(text) + text) && Ends(s, e + |Separator(text) + text|)
    ensures text != "" ==> !At(s, e, '0') && (e < |s| ==> !IsDigit(s[e]))
    ensures var c := if At(s, e, '_') then e + 1 else e;
      c == e + |Separator(text)| && c + |text| <= |s| && s[c..c + |text|] == text
  {
    var sep := Separator(text);
    SitsSplit(s, e, sep, text);
    if sep == "_" {
      SitsAt(s, e, sep);
    } else if text != "" {
      SitsAt(s, e, text);
    }
  }

  lemma AbiEmits(s: string, n: nat, a: AbiName)
    requires Sits(s, n, AbiCode(a)) && Ends(s, n + |AbiCode(a)|)
    requires a.RustAbi? ==> !At(s, n, 'K')
    ensures AbiAt(s, n, a) == Found(n + |AbiCode(a)|, 0)
  {
    hide NameAt, NameCode;
    match a
    case RustAbi =>
    case CAbi =>
      SitsSplit(s, n, "K", "C");
      SitsAt(s, n, "K");
      SitsAt(s, n + 1, "C");
    case OtherAbi(name) =>
      SitsSplit(s, n, "K", NameCode(name));
      SitsAt(s, n, "K");
      NameEmits(s, n + 1, name);
  }

  // ---- every piece starts with a letter ----------------------------------

  lemma TreeLettered(t: Tree, d: Build, memo: Memo, n: nat)
    ensures Lettered(EmitTree(t, d, memo, n).text) && IsUpper(EmitTree(t, d, memo, n).text[0])
  {
    hide EmitTy, EmitArgs, NameCode, SlotText, DisText, Text62;
  }

  lemma TyLettered(t: Ty, d: Build, memo: Memo, n: nat)
    requires WfTy(t)
    ensures Lettered(EmitTy(t, d, memo, n).text)
  {
    hide EmitTree, EmitTys, EmitBounds, EmitVal, MaybeCode, AbiCode, Text62;
    if t.Named? {
      TreeLettered(t.path, d, memo, n);
    }
  }

  lemma ArgsLettered(l: List<Arg>, d: Build, memo: Memo, n: nat)
    requires WfArgs(l)
    ensures Lettered(EmitArgs(l, d, memo, n).text)
  {
    hide EmitTy, EmitVal, Text62;
    if l.Cons? && l.head.TypeArg? {
      TyLettered(l.head.ty, d, memo, n);
    }
  }

  lemma TysLettered(l: List<Ty>, d: Build, memo: Memo, n: nat)
    requires WfTys(l)
    ensures Lettered(EmitTys(l, d, memo, n).text)
  {
    hide EmitTy;
    if l.Cons? {
      TyLettered(l.head, d, memo, n);
    }
  }

  lemma BoundsLettered(l: List<Bound>, d: Build, memo: Memo, n: nat)
    ensures Lettered(EmitBounds(l, d, memo, n).text) && IsUpper(EmitBounds(l, d, memo, n).text[0])
  {
    hide EmitTree, EmitBindings;
    if l.Cons? {
      TreeLettered(l.head.path, d, memo, n);
    }
  }

  // ---- what the memo promises about the finished string ------------------

  function MatchNode(s: string, p: nat, k: Node): Match
    requires p <= |s|
  {
    match k
    case NTree(t) => MatchTree(s, p, t)
    case NTy(t) => MatchTy(s, p, t)
    case NVal(c) => MatchVal(s, p, c)
  }

  /** k is printed in full at p. */
  predicate InFull(s: string, p: nat, k: Node) {
    p < |s| && s[p] != 'B' && MatchNode(s, p, k).Found?
  }

  /** Where a node was printed, and with how many levels. */
  ghost predicate EntryOk(s: string, at: nat, levels: nat, k: Node, n: nat) {
    at < n && InFull(s, at, k) && MatchNode(s, at, k).levels == levels
  }

  /** The memo and the levels know the same nodes, all printed before n. */
  ghost predicate MemoOk(s: string, memo: Memo, seen: Seen, n: nat) {
    && memo.Keys == seen.Keys
    && forall k :: k in memo ==> EntryOk(s, memo[k], seen[k], k, n)
  }

  lemma MemoAdds(s: string, memo: Memo, seen: Seen, n: nat, k: Node, p: nat, levels: nat)
    requires MemoOk(s, memo, seen, n) && EntryOk(s, p, levels, k, n)
    ensures MemoOk(s, memo[k := p], seen[k := levels], n)
  {
    hide EntryOk;
  }

  lemma MemoGrows(s: string, memo: Memo, seen: Seen, n: nat, n': nat)
    requires MemoOk(s, memo, seen, n) && n <= n'
    ensures MemoOk(s, memo, seen, n')
  {
    hide InFull, MatchNode;
  }

  /** What printing a piece up to e achieves: it is matched with the levels of c. */
  ghost predicate Placed(s: string, m: Match, e: nat, memo: Memo, c: Cost) {
    m == Found(e, c.levels) && MemoOk(s, memo, c.seen, e)
  }

  /** The piece has been printed from n on, and no underscore follows it. */
  ghost predicate Printed(s: string, n: nat, o: Out, memo: Memo, seen: Seen) {
    Sits(s, n, o.text) && Ends(s, n + |o.text|) && MemoOk(s, memo, seen, n)
  }

  // ---- trees -------------------------------------------------------------

  lemma {:induction false} TreePlaced(s: string, t: Tree, d: Build, memo: Memo, seen: Seen, n: nat)
    requires WfTree(t) && Printed(s, n, EmitTree(t, d, memo, n), memo, seen)
    ensures var o := EmitTree(t, d, memo, n);
      Placed(s, MatchTree(s, n, t), n + |o.text|, o.memo, LevelsTree(t, seen))
    decreases t, 3
  {
    hide MatchTree, EmitNode, LevelsNode, Sits, Ends, WfTree, MemoOk, RefCode;
    var k := NTree(t);
    if k in memo {
      var o := EmitTree(t, d, memo, n);
      MemoEntry(s, memo, seen, n, k);
      MemoGrows(s, memo, seen, n, n + |o.text|);
      TreeRefPlaced(s, t, n, memo[k]);
    } else {
      MemoLacks(s, memo, seen, n, k);
      NodePlaced(s, t, d, memo, seen, n);
      var o, c := EmitNode(t, d, memo, n), LevelsNode(t, seen);
      MemoAdds(s, o.memo, c.seen, n + |o.text|, k, n, c.levels);
    }
  }


  lemma MemoEntry(s: string, memo: Memo, seen: Seen, n: nat, k: Node)
    requires MemoOk(s, memo, seen, n) && k in memo
    ensures k in seen && EntryOk(s, memo[k], seen[k], k, n)
  {
    hide EntryOk;
    assert k in memo.Keys;
  }

  lemma MemoLacks(s: string, memo: Memo, seen: Seen, n: nat, k: Node)
    requires MemoOk(s, memo, seen, n) && k !in memo
    ensures k !in seen
  {
    hide EntryOk;
    assert k !in memo.Keys;
  }

  lemma TreeRefPlaced(s: string, t: Tree, n: nat, off: nat)
    requires Sits(s, n, RefCode(off)) && off < n && InFull(s, off, NTree(t))
    ensures MatchTree(s, n, t) == Found(n + |RefCode(off)|, 1 + MatchTree(s, off, t).levels)
  {
    hide RefCode, RefAt;
    RefEmits(s, n, off);
    assert At(s, n, 'B') by { RefTag(s, n, off); }
  }

  lemma RefTag(s: string, n: nat, off: nat)
    requires Sits(s, n, RefCode(off))
    ensures At(s, n, 'B')
  {
    SitsAt(s, n, RefCode(off));
  }

  /** What printing a node in full from n on achieves. */
  ghost predicate Done(s: string, n: nat, k: Node, o: Out, c: Cost) {
    && n < |s| && s[n] != 'B' && |o.text| > 0
    && Placed(s, MatchNode(s, n, k), n + |o.text|, o.memo, c)
  }

  lemma {:induction false} NodePlaced(s: string, t: Tree, d: Build, memo: Memo, seen: Seen, n: nat)
    requires WfTree(t) && Printed(s, n, EmitNode(t, d, memo, n), memo, seen)
    ensures Done(s, n, NTree(t), EmitNode(t, d, memo, n), LevelsNode(t, seen))
    decreases t, 2
  {
    hide EmitNode, WfTree, Done, Printed;
    match t
    case Crate(_, _) => CratePlaced(s, t, d, memo, seen, n);
    case Inherent(_, _, _) => InherentPlaced(s, t, d, memo, seen, n);
    case TraitImpl(_, _, _, _) => TraitImplPlaced(s, t, d, memo, seen, n);
    case TraitItem(_, _) => TraitItemPlaced(s, t, d, memo, seen, n);
    case Nested(_, _, _, _) => NestedPlaced(s, t, d, memo, seen, n);
    case Generic(_, _) => GenericPlaced(s, t, d, memo, seen, n);
  }

  lemma CratePlaced(s: string, t: Tree, d: Build, memo: Memo, seen: Seen, n: nat)
    requires t.Crate? && Printed(s, n, EmitNode(t, d, memo, n), memo, seen)
    ensures Done(s, n, NTree(t), EmitNode(t, d, memo, n), LevelsNode(t, seen))
  {
    hide Sits, NameCode, SlotText, NameAt, SlotAt, MemoOk;
    var slot, code := SlotText(d(t.slot)), NameCode(t.name);
    SitsSplit(s, n, "C", slot + code);
    SitsAt(s, n, "C");
    SitsSplit(s, n + 1, slot, code);
    SitsAt(s, n + 1 + |slot|, code);
    NameHead(t.name);
    SlotEmits(s, n + 1, d(t.slot));
    NameEmits(s, n + 1 + |slot|, t.name);
    MemoGrows(s, memo, seen, n, n + |EmitNode(t, d, memo, n).text|);
  }

  /** The tag, the slot and the home of an impl. */
  function EmitHome(tag: char, slot: nat, home: Tree, d: Build, memo: Memo, n: nat): Out {
    var head := [tag] + SlotText(d(slot));
    var o := EmitTree(home, d, memo, n + |head|);
    Out(head + o.text, o.memo)
  }

  lemma HomePlaced(s: string, tag: char, slot: nat, home: Tree, d: Build, memo: Memo, seen: Seen, n: nat)
    requires WfTree(home) && Printed(s, n, EmitHome(tag, slot, home, d, memo, n), memo, seen)
    ensures var o := EmitHome(tag, slot, home, d, memo, n);
      && At(s, n, tag) && |o.text| > 0
      && Placed(s, MatchHome(s, n + 1, home), n + |o.text|, o.memo, LevelsTree(home, seen))
    decreases home, 4
  {
    hide Sits, SlotText, SlotAt, MemoOk, EmitTree, MatchTree, LevelsTree;
    var slotText := SlotText(d(slot));
    var head := [tag] + slotText;
    var o := EmitTree(home, d, memo, n + |head|);
    SitsSplit(s, n, head, o.text);
    SitsSplit(s, n, [tag], slotText);
    SitsAt(s, n, [tag]);
    TreeLettered(home, d, memo, n + |head|);
    SitsAt(s, n + |head|, o.text);
    SlotEmits(s, n + 1, d(slot));
    MemoGrows(s, memo, seen, n, n + |head|);
    TreePlaced(s, home, d, memo, seen, n + |head|);
  }

  lemma InherentPlaced(s: string, t: Tree, d: Build, memo: Memo, seen: Seen, n: nat)
    requires t.Inherent? && WfTree(t) && Printed(s, n, EmitNode(t, d, memo, n), memo, seen)
    ensures Done(s, n, NTree(t), EmitNode(t, d, memo, n), LevelsNode(t, seen))
    decreases t, 1
  {
    hide Sits, SlotText, EmitTree, EmitTy, MatchHome, MatchTy, MemoOk, LevelsTree, LevelsTy;
    var o1, c1 := EmitHome('M', t.slot, t.home, d, memo, n), LevelsTree(t.home, seen);
    var n1 := n + |o1.text|;
    var o2 := EmitTy(t.self, d, o1.memo, n1);
    assert EmitNode(t, d, memo, n).text == o1.text + o2.text;
    SitsSplit(s, n, o1.text, o2.text);
    TyLettered(t.self, d, o1.memo, n1);
    LetteredEnds(s, n1, o2.text);
    HomePlaced(s, 'M', t.slot, t.home, d, memo, seen, n);
    TyPlaced(s, t.self, d, o1.memo, c1.seen, n1);
  }

  /** A self type and a trait. */
  function EmitQualified(self: Ty, tr: Tree, d: Build, memo: Memo, n: nat): Out {
    var o2 := EmitTy(self, d, memo, n);
    var o3 := EmitTree(tr, d, o2.memo, n + |o2.text|);
    Out(o2.text + o3.text, o3.memo)
  }

  lemma QualifiedLettered(self: Ty, tr: Tree, d: Build, memo: Memo, n: nat)
    requires WfTy(self)
    ensures Lettered(EmitQualified(self, tr, d, memo, n).text)
  {
    hide EmitTy, EmitTree;
    TyLettered(self, d, memo, n);
  }

  /** What placing a self type and a trait from n on achieves. */
  ghost predicate QualifiedDone(s: string, n: nat, self: Ty, tr: Tree, o: Out, seen: Seen) {
    n <= |s| &&
    var m, c := MatchTy(s, n, self), LevelsTy(self, seen);
    && m.Found? && m.levels == c.levels
    && Placed(s, MatchTree(s, m.end, tr), n + |o.text|, o.memo, LevelsTree(tr, c.seen))
  }

  lemma QualifiedPlaced(s: string, t: Tree, self: Ty, tr: Tree, d: Build, memo: Memo, seen: Seen, n: nat)
    requires WfTy(self) && WfTree(tr) && Printed(s, n, EmitQualified(self, tr, d, memo, n), memo, seen)
    requires (t.TraitImpl? && self == t.self && tr == t.tr) || (t.TraitItem? && self == t.self && tr == t.tr)
    ensures QualifiedDone(s, n, self, tr, EmitQualified(self, tr, d, memo, n), seen)
    decreases t, 0
  {
    hide Sits, EmitTree, EmitTy, MatchTree, MatchTy, MemoOk, LevelsTree, LevelsTy;
    var o2 := EmitTy(self, d, memo, n);
    var n3 := n + |o2.text|;
    var o3 := EmitTree(tr, d, o2.memo, n3);
    SitsSplit(s, n, o2.text, o3.text);
    TreeLettered(tr, d, o2.memo, n3);
    LetteredEnds(s, n3, o3.text);
    TyPlaced(s, self, d, memo, seen, n);
    TreePlaced(s, tr, d, o2.memo, LevelsTy(self, seen).seen, n3);
  }

  lemma TraitImplPlaced(s: string, t: Tree, d: Build, memo: Memo, seen: Seen, n: nat)
    requires t.TraitImpl? && WfTree(t) && Printed(s, n, EmitNode(t, d, memo, n), memo, seen)
    ensures Done(s, n, NTree(t), EmitNode(t, d, memo, n), LevelsNode(t, seen))
    decreases t, 1
  {
    hide Sits, SlotText, EmitTree, EmitTy, MatchHome, MatchTy, MatchTree, MemoOk, Lettered, LevelsTree, LevelsTy;
    var o1, c1 := EmitHome('X', t.slot, t.home, d, memo, n), LevelsTree(t.home, seen);
    var n1 := n + |o1.text|;
    var o2 := EmitQualified(t.self, t.tr, d, o1.memo, n1);
    assert EmitNode(t, d, memo, n).text == o1.text + o2.text;
    SitsSplit(s, n, o1.text, o2.text);
    QualifiedLettered(t.self, t.tr, d, o1.memo, n1);
    LetteredEnds(s, n1, o2.text);
    HomePlaced(s, 'X', t.slot, t.home, d, memo, seen, n);
    QualifiedPlaced(s, t, t.self, t.tr, d, o1.memo, c1.seen, n1);
    TraitImplMatches(s, t, n);
  }

  lemma TraitImplMatches(s: string, t: Tree, n: nat)
    requires t.TraitImpl? && At(s, n, 'X')
    requires var h := MatchHome(s, n + 1, t.home);
      h.Found? && var m := MatchTy(s, h.end, t.self); m.Found? && MatchTree(s, m.end, t.tr).Found?
    ensures var h := MatchHome(s, n + 1, t.home);
      var m := MatchTy(s, h.end, t.self);
      var m2 := MatchTree(s, m.end, t.tr);
      MatchTree(s, n, t) == Found(m2.end, 1 + Max(h.levels, Max(m.levels, m2.levels)))
  {
    hide MatchTy, MatchHome;
  }

  lemma TraitItemPlaced(s: string, t: Tree, d: Build, memo: Memo, seen: Seen, n: nat)
    requires t.TraitItem? && WfTree(t) && Printed(s, n, EmitNode(t, d, memo, n), memo, seen)
    ensures Done(s, n, NTree(t), EmitNode(t, d, memo, n), LevelsNode(t, seen))
    decreases t, 1
  {
    hide Sits, EmitTree, EmitTy, MatchTy, MatchTree, MemoOk, LevelsTree, LevelsTy;
    var o2 := EmitQualified(t.self, t.tr, d, memo, n + 1);
    SitsSplit(s, n, "Y", o2.text);
    SitsAt(s, n, "Y");
    MemoGrows(s, memo, seen, n, n + 1);
    QualifiedPlaced(s, t, t.self, t.tr, d, memo, seen, n + 1);
    TraitItemMatches(s, t, n);
  }

  lemma TraitItemMatches(s: string, t: Tree, n: nat)
    requires t.TraitItem? && At(s, n, 'Y')
    requires var m := MatchTy(s, n + 1, t.self); m.Found? && MatchTree(s, m.end, t.tr).Found?
    ensures var m := MatchTy(s, n + 1, t.self);
      var m2 := MatchTree(s, m.end, t.tr);
      MatchTree(s, n, t) == Found(m2.end, 1 + Max(m.levels, m2.levels))
  {
    hide MatchTy;
  }

  lemma NestedPlaced(s: string, t: Tree, d: Build, memo: Memo, seen: Seen, n: nat)
    requires t.Nested? && WfTree(t) && Printed(s, n, EmitNode(t, d, memo, n), memo, seen)
    ensures Done(s, n, NTree(t), EmitNode(t, d, memo, n), LevelsNode(t, seen))
    decreases t, 1
  {
    hide Sits, EmitTree, EmitNode, NameCode, DisText, NameAt, DisAt, MemoOk, MatchTree, LevelsTree, Ends;
    var o, c := EmitTree(t.parent, d, memo, n + 2), LevelsTree(t.parent, seen);
    var dis, code := DisText(t.dis), NameCode(t.name);
    var n1 := n + 2 + |o.text|;
    NestedCode(t, d, memo, n);
    SitsSplit(s, n, ['N', t.ns], o.text + (dis + code));
    SitsSplit(s, n, ['N'], [t.ns]);
    SitsAt(s, n, ['N']);
    SitsAt(s, n + 1, [t.ns]);
    SitsSplit(s, n + 2, o.text, dis + code);
    SitsSplit(s, n1, dis, code);
    NameHead(t.name);
    SitsAt(s, n1 + |dis|, code);
    SuffixEnds(s, n1, t.dis, t.name);
    MemoGrows(s, memo, seen, n, n + 2);
    TreePlaced(s, t.parent, d, memo, seen, n + 2);
    DisEmits(s, n1, t.dis);
    NameEmits(s, n1 + |dis|, t.name);
    MemoGrows(s, o.memo, c.seen, n1, n1 + |dis| + |code|);
    NestedMatches(s, t, n);
  }

  lemma NestedCode(t: Tree, d: Build, memo: Memo, n: nat)
    requires t.Nested?
    ensures var o := EmitTree(t.parent, d, memo, n + 2);
      && EmitNode(t, d, memo, n).text == ['N', t.ns] + (o.text + (DisText(t.dis) + NameCode(t.name)))
      && EmitNode(t, d, memo, n).memo == o.memo
  {
    hide EmitTree, DisText, NameCode;
  }

  lemma NestedMatches(s: string, t: Tree, n: nat)
    requires t.Nested? && At(s, n, 'N') && At(s, n + 1, t.ns)
    requires var m := MatchTree(s, n + 2, t.parent);
      && m.Found? && DisAt(s, m.end, t.dis).Found?
      && NameAt(s, DisAt(s, m.end, t.dis).end, t.name).Found?
    ensures var m := MatchTree(s, n + 2, t.parent);
      MatchTree(s, n, t) == Found(NameAt(s, DisAt(s, m.end, t.dis).end, t.name).end, 1 + m.levels)
  {
    hide DisAt, NameAt;
  }

  lemma SuffixEnds(s: string, n: nat, dis: nat, name: Name)
    requires Sits(s, n, DisText(dis) + NameCode(name))
    ensures Ends(s, n)
  {
    hide NameCode, Text62;
    NameHead(name);
    SitsAt(s, n, DisText(dis) + NameCode(name));
  }

  lemma GenericPlaced(s: string, t: Tree, d: Build, memo: Memo, seen: Seen, n: nat)
    requires t.Generic? && WfTree(t) && Printed(s, n, EmitNode(t, d, memo, n), memo, seen)
    ensures Done(s, n, NTree(t), EmitNode(t, d, memo, n), LevelsNode(t, seen))
    decreases t, 1
  {
    hide Sits, EmitTree, EmitArgs, MatchArgs, MemoOk, MatchTree, LevelsTree, LevelsArgs;
    var o1, c1 := EmitTree(t.base, d, memo, n + 1), LevelsTree(t.base, seen);
    var n1 := n + 1 + |o1.text|;
    var o2 := EmitArgs(t.args, d, o1.memo, n1);
    SitsSplit(s, n, "I", o1.text + o2.text);
    SitsAt(s, n, "I");
    SitsSplit(s, n + 1, o1.text, o2.text);
    ArgsLettered(t.args, d, o1.memo, n1);
    LetteredEnds(s, n1, o2.text);
    MemoGrows(s, memo, seen, n, n + 1);
    TreePlaced(s, t.base, d, memo, seen, n + 1);
    ArgsPlaced(s, t.args, d, o1.memo, c1.seen, n1);
    GenericMatches(s, t, n);
  }

  lemma GenericMatches(s: string, t: Tree, n: nat)
    requires t.Generic? && At(s, n, 'I')
    requires var m := MatchTree(s, n + 1, t.base); m.Found? && MatchArgs(s, m.end, t.args).Found?
    ensures var m := MatchTree(s, n + 1, t.base);
      var m2 := MatchArgs(s, m.end, t.args);
      MatchTree(s, n, t) == Found(m2.end, 1 + Max(m.levels, m2.levels))
  {
    hide MatchArgs;
  }

  // ---- generic arguments and constants -----------------------------------

  lemma ArgPlaced(s: string, a: Arg, d: Build, memo: Memo, seen: Seen, n: nat)
    requires (a.ConstArg? ==> WfVal(a.value)) && (a.TypeArg? ==> WfTy(a.ty))
    requires Printed(s, n, EmitArg(a, d, memo, n), memo, seen)
    ensures var o := EmitArg(a, d, memo, n);
      Placed(s, MatchArg(s, n, a), n + |o.text|, o.memo, LevelsArg(a, seen))
    decreases a, 4
  {
    hide Sits, EmitTy, EmitVal, MatchTy, MatchVal, NumberAt, Text62, MemoOk, LevelsTy, LevelsVal;
    match a
    case LifetimeArg(idx) =>
      SitsSplit(s, n, "L", Text62(idx));
      SitsAt(s, n, "L");
      NumberEmits(s, n + 1, idx);
      MemoGrows(s, memo, seen, n, n + 1 + |Text62(idx)|);
    case ConstArg(c) =>
      var o := EmitVal(c, d, memo, n + 1);
      SitsSplit(s, n, "K", o.text);
      SitsAt(s, n, "K");
      MemoGrows(s, memo, seen, n, n + 1);
      ValPlaced(s, c, d, memo, seen, n + 1);
    case TypeArg(t) =>
      TyPlaced(s, t, d, memo, seen, n);
  }

  lemma {:induction false} ArgsPlaced(s: string, l: List<Arg>, d: Build, memo: Memo, seen: Seen, n: nat)
    requires WfArgs(l) && Printed(s, n, EmitArgs(l, d, memo, n), memo, seen)
    ensures var o := EmitArgs(l, d, memo, n);
      Placed(s, MatchArgs(s, n, l), n + |o.text|, o.memo, LevelsArgs(l, seen))
    decreases l, 4
  {
    if l.Nil? {
      hide MemoOk;
      SitsAt(s, n, "E");
      MemoGrows(s, memo, seen, n, n + 1);
    } else {
      ArgsConsPlaced(s, l, d, memo, seen, n);
    }
  }

  lemma ArgsConsPlaced(s: string, l: List<Arg>, d: Build, memo: Memo, seen: Seen, n: nat)
    requires l.Cons? && WfArgs(l) && Printed(s, n, EmitArgs(l, d, memo, n), memo, seen)
    ensures var o := EmitArgs(l, d, memo, n);
      Placed(s, MatchArgs(s, n, l), n + |o.text|, o.memo, LevelsArgs(l, seen))
    decreases l, 3
  {
    hide Sits, EmitArg, EmitArgs, MatchArg, MatchArgs, MemoOk, Lettered, LevelsArg;
    var o1, c1 := EmitArg(l.head, d, memo, n), LevelsArg(l.head, seen);
    var n1 := n + |o1.text|;
    var o2 := EmitArgs(l.tail, d, o1.memo, n1);
    ArgsText(l, d, memo, n);
    SitsSplit(s, n, o1.text, o2.text);
    ArgsLettered(l.tail, d, o1.memo, n1);
    LetteredEnds(s, n1, o2.text);
    ArgPlaced(s, l.head, d, memo, seen, n);
    ArgsPlaced(s, l.tail, d, o1.memo, c1.seen, n1);
    ArgsMatch(s, l, n);
  }

  lemma ArgsText(l: List<Arg>, d: Build, memo: Memo, n: nat)
    requires l.Cons?
    ensures var o1 := EmitArg(l.head, d, memo, n);
      var o2 := EmitArgs(l.tail, d, o1.memo, n + |o1.text|);
      EmitArgs(l, d, memo, n) == Out(o1.text + o2.text, o2.memo)
  {
    hide EmitArg;
  }

  lemma ArgsMatch(s: string, l: List<Arg>, n: nat)
    requires n <= |s| && l.Cons? && MatchArg(s, n, l.head).Found?
    requires MatchArgs(s, MatchArg(s, n, l.head).end, l.tail).Found?
    ensures var m := MatchArg(s, n, l.head);
      var m2 := MatchArgs(s, m.end, l.tail);
      MatchArgs(s, n, l) == Found(m2.end, Max(m.levels, m2.levels))
  {
    hide MatchArg;
  }

  lemma ValPlaced(s: string, c: Val, d: Build, memo: Memo, seen: Seen, n: nat)
    requires WfVal(c) && Printed(s, n, EmitVal(c, d, memo, n), memo, seen)
    ensures var o := EmitVal(c, d, memo, n);
      Placed(s, MatchVal(s, n, c), n + |o.text|, o.memo, LevelsVal(c, seen))
  {
    hide MemoOk, RefCode, Sits, WfVal, MatchVal, LevelsTy;
    var o, k := EmitVal(c, d, memo, n), NVal(c);
    if c.Hole? {
      HoleMatches(s, n);
      MemoGrows(s, memo, seen, n, n + 1);
    } else if k in memo {
      MemoEntry(s, memo, seen, n, k);
      MemoGrows(s, memo, seen, n, n + |o.text|);
      ValRefPlaced(s, c, n, memo[k]);
    } else {
      MemoLacks(s, memo, seen, n, k);
      ValueText(c, d, memo, n);
      ValueMatches(s, c, n);
      ValueLevels(c, seen);
      MemoGrows(s, memo, seen, n, n + |o.text|);
      MemoAdds(s, memo, seen, n + |o.text|, k, n, 1);
    }
  }

  lemma HoleMatches(s: string, n: nat)
    requires Sits(s, n, "p")
    ensures MatchVal(s, n, Hole) == Found(n + 1, 0)
  {
    SitsAt(s, n, "p");
  }

  lemma ValRefPlaced(s: string, c: Val, n: nat, off: nat)
    requires Sits(s, n, RefCode(off)) && off < n && InFull(s, off, NVal(c))
    ensures MatchVal(s, n, c) == Found(n + |RefCode(off)|, MatchVal(s, off, c).levels)
  {
    hide RefCode, RefAt;
    RefEmits(s, n, off);
    RefTag(s, n, off);
  }

  lemma ValueLevels(c: Val, seen: Seen)
    requires c.Value? && WfVal(c) && NVal(c) !in seen
    ensures LevelsVal(c, seen) == Cost(1, seen[NVal(c) := 1])
  {
  }


  lemma ValueText(c: Val, d: Build, memo: Memo, n: nat)
    requires c.Value? && WfVal(c) && NVal(c) !in memo
    ensures EmitVal(c, d, memo, n).text == [c.ty.tag] + ((if c.neg then "n" else "") + (c.hex + "_"))
    ensures EmitVal(c, d, memo, n).memo == memo[NVal(c) := n]
  {
  }

  lemma ValueMatches(s: string, c: Val, n: nat)
    requires c.Value? && WfVal(c)
    requires Sits(s, n, [c.ty.tag] + ((if c.neg then "n" else "") + (c.hex + "_")))
    ensures n < |s| && s[n] != 'B'
    ensures MatchVal(s, n, c) == Found(n + 1 + (if c.neg then 1 else 0) + |c.hex| + 1, 1)
  {
    hide HexAt;
    var sign := if c.neg then "n" else "";
    SitsSplit(s, n, [c.ty.tag], sign + (c.hex + "_"));
    SitsAt(s, n, [c.ty.tag]);
    SitsSplit(s, n + 1, sign, c.hex + "_");
    if c.neg {
      SitsAt(s, n + 1, sign);
    } else {
      SitsAt(s, n + 1, c.hex + "_");
    }
    HexEmits(s, n + 1, c.neg, c.hex);
    BasicPlaced(s, c.ty, n);
  }

  lemma HexEmits(s: string, p: nat, neg: bool, hex: string)
    requires var a := if neg then p + 1 else p;
      Sits(s, a, hex + "_") && At(s, p, 'n') == neg
    requires AllHex(hex)
    ensures HexAt(s, p, neg, hex) == Found((if neg then p + 1 else p) + |hex| + 1, 0)
  {
    var a := if neg then p + 1 else p;
    var z := a + |hex|;
    SitsSplit(s, a, hex, "_");
    SitsAt(s, z, "_");
    forall i | a <= i < z
      ensures s[i] != '_'
    {
      assert s[i] == s[a..a + |hex|][i - a] == hex[i - a];
    }
    UnderscoreIs(s, a, z);
  }

  // ---- types -------------------------------------------------------------

  lemma {:induction false} TyPlaced(s: string, t: Ty, d: Build, memo: Memo, seen: Seen, n: nat)
    requires WfTy(t) && Printed(s, n, EmitTy(t, d, memo, n), memo, seen)
    ensures var o := EmitTy(t, d, memo, n);
      Placed(s, MatchTy(s, n, t), n + |o.text|, o.memo, LevelsTy(t, seen))
    decreases t, 3
  {
    hide MatchTy, EmitTree, EmitTyNode, LevelsTree, LevelsTyNode, Sits, Ends, WfTy, MemoOk, RefCode;
    var k := NTy(t);
    var o := EmitTy(t, d, memo, n);
    if t.Basic? {
      BasicPlaced(s, t, n);
      MemoGrows(s, memo, seen, n, n + 1);
    } else if t.Named? {
      NamedPlaced(s, t, d, memo, seen, n);
    } else if k in memo {
      MemoEntry(s, memo, seen, n, k);
      MemoGrows(s, memo, seen, n, n + |o.text|);
      TyRefPlaced(s, t, n, memo[k]);
    } else {
      MemoLacks(s, memo, seen, n, k);
      TyNodePlaced(s, t, d, memo, seen, n);
      var o1, c := EmitTyNode(t, d, memo, n), LevelsTyNode(t, seen);
      MemoAdds(s, o1.memo, c.seen, n + |o1.text|, k, n, c.levels);
    }
  }

  lemma BasicPlaced(s: string, t: Ty, n: nat)
    requires t.Basic? && WfTy(t) && Sits(s, n, [t.tag])
    ensures MatchTy(s, n, t) == Found(n + 1, 1)
  {
    SitsAt(s, n, [t.tag]);
  }


  lemma TyRefPlaced(s: string, t: Ty, n: nat, off: nat)
    requires Sits(s, n, RefCode(off)) && off < n && InFull(s, off, NTy(t))
    ensures MatchTy(s, n, t) == Found(n + |RefCode(off)|, 1 + MatchTy(s, off, t).levels)
  {
    hide RefCode, RefAt;
    RefEmits(s, n, off);
    RefTag(s, n, off);
  }

  lemma NamedPlaced(s: string, t: Ty, d: Build, memo: Memo, seen: Seen, n: nat)
    requires t.Named? && WfTy(t) && Printed(s, n, EmitTree(t.path, d, memo, n), memo, seen)
    ensures var o, c := EmitTree(t.path, d, memo, n), LevelsTree(t.path, seen);
      Placed(s, MatchTy(s, n, t), n + |o.text|, o.memo, Cost(1 + c.levels, c.seen))
    decreases t, 1
  {
    hide MatchTree, MatchTy, EmitNode, LevelsNode, Sits, Ends, WfTree, MemoOk, RefCode;
    var k := NTree(t.path);
    if k in memo {
      MemoEntry(s, memo, seen, n, k);
      MemoGrows(s, memo, seen, n, n + |EmitTree(t.path, d, memo, n).text|);
      NamedRefPlaced(s, t, n, memo[k]);
    } else {
      NodePlaced(s, t.path, d, memo, seen, n);
      NamedInFull(s, t, n);
      TreePlaced(s, t.path, d, memo, seen, n);
    }
  }

  lemma NamedRefPlaced(s: string, t: Ty, n: nat, off: nat)
    requires t.Named? && Sits(s, n, RefCode(off)) && off < n && InFull(s, off, NTree(t.path))
    ensures MatchTy(s, n, t) == Found(n + |RefCode(off)|, 2 + MatchTree(s, off, t.path).levels)
  {
    hide RefCode, RefAt, MatchTree;
    RefEmits(s, n, off);
    RefTag(s, n, off);
  }

  lemma NamedInFull(s: string, t: Ty, n: nat)
    requires t.Named? && InFull(s, n, NTree(t.path))
    ensures var m := MatchTree(s, n, t.path);
      MatchTy(s, n, t) == Found(m.end, 1 + m.levels)
  {
    hide MatchTree;
  }

  lemma {:induction false} TyNodePlaced(s: string, t: Ty, d: Build, memo: Memo, seen: Seen, n: nat)
    requires !t.Basic? && !t.Named? && WfTy(t) && Printed(s, n, EmitTyNode(t, d, memo, n), memo, seen)
    ensures Done(s, n, NTy(t), EmitTyNode(t, d, memo, n), LevelsTyNode(t, seen))
    decreases t, 2
  {
    hide EmitTyNode, WfTy, Done, Printed;
    match t
    case Array(_, _) => ArrayPlaced(s, t, d, memo, seen, n);
    case Slice(_) => PointerPlaced(s, t, d, memo, seen, n);
    case Ptr(_, _) => PointerPlaced(s, t, d, memo, seen, n);
    case Tuple(_) => TuplePlaced(s, t, d, memo, seen, n);
    case Ref(_, _, _) => RefTypePlaced(s, t, d, memo, seen, n);
    case FnPtr(_, _, _, _, _) => FnPlaced(s, t, d, memo, seen, n);
    case Dyn(_, _, _) => DynPlaced(s, t, d, memo, seen, n);
  }

  lemma ArrayPlaced(s: string, t: Ty, d: Build, memo: Memo, seen: Seen, n: nat)
    requires t.Array? && WfTy(t) && Printed(s, n, EmitTyNode(t, d, memo, n), memo, seen)
    ensures Done(s, n, NTy(t), EmitTyNode(t, d, memo, n), LevelsTyNode(t, seen))
    decreases t, 1
  {
    hide Sits, EmitTy, EmitVal, MatchVal, MemoOk, MatchTy, LevelsTy, LevelsVal, Lettered, Ends, WfVal;
    var o1, c1 := EmitTy(t.elem, d, memo, n + 1), LevelsTy(t.elem, seen);
    var n1 := n + 1 + |o1.text|;
    var o2 := EmitVal(t.len, d, o1.memo, n1);
    SitsSplit(s, n, "A", o1.text + o2.text);
    SitsAt(s, n, "A");
    SitsSplit(s, n + 1, o1.text, o2.text);
    ValLettered(t.len, d, o1.memo, n1);
    LetteredEnds(s, n1, o2.text);
    MemoGrows(s, memo, seen, n, n + 1);
    TyPlaced(s, t.elem, d, memo, seen, n + 1);
    ValPlaced(s, t.len, d, o1.memo, c1.seen, n1);
    ArrayMatches(s, t, n);
  }

  lemma ArrayMatches(s: string, t: Ty, n: nat)
    requires t.Array? && At(s, n, 'A')
    requires var m := MatchTy(s, n + 1, t.elem); m.Found? && MatchVal(s, m.end, t.len).Found?
    ensures var m := MatchTy(s, n + 1, t.elem);
      var m2 := MatchVal(s, m.end, t.len);
      MatchTy(s, n, t) == Found(m2.end, 1 + Max(m.levels, m2.levels))
  {
    hide MatchVal;
  }

  lemma ValLettered(c: Val, d: Build, memo: Memo, n: nat)
    requires WfVal(c)
    ensures Lettered(EmitVal(c, d, memo, n).text)
  {
    hide Text62;
  }

  lemma PointerPlaced(s: string, t: Ty, d: Build, memo: Memo, seen: Seen, n: nat)
    requires (t.Slice? || t.Ptr?) && WfTy(t) && Printed(s, n, EmitTyNode(t, d, memo, n), memo, seen)
    ensures Done(s, n, NTy(t), EmitTyNode(t, d, memo, n), LevelsTyNode(t, seen))
    decreases t, 1
  {
    hide Sits, EmitTy, MemoOk, MatchTy, LevelsTy;
    var e := if t.Slice? then t.elem else t.target;
    var tag := if t.Slice? then "S" else if t.mutable then "O" else "P";
    var o := EmitTy(e, d, memo, n + 1);
    SitsSplit(s, n, tag, o.text);
    SitsAt(s, n, tag);
    MemoGrows(s, memo, seen, n, n + 1);
    TyPlaced(s, e, d, memo, seen, n + 1);
    PointerMatches(s, t, n, e);
  }

  lemma PointerMatches(s: string, t: Ty, n: nat, e: Ty)
    requires (t.Slice? && e == t.elem) || (t.Ptr? && e == t.target)
    requires At(s, n, if t.Slice? then 'S' else if t.mutable then 'O' else 'P')
    requires MatchTy(s, n + 1, e).Found?
    ensures var m := MatchTy(s, n + 1, e);
      MatchTy(s, n, t) == Found(m.end, 1 + m.levels)
  {
  }

  lemma TuplePlaced(s: string, t: Ty, d: Build, memo: Memo, seen: Seen, n: nat)
    requires t.Tuple? && WfTy(t) && Printed(s, n, EmitTyNode(t, d, memo, n), memo, seen)
    ensures Done(s, n, NTy(t), EmitTyNode(t, d, memo, n), LevelsTyNode(t, seen))
    decreases t, 1
  {
    hide Sits, EmitTys, MatchTys, MemoOk, LevelsTys;
    var o := EmitTys(t.elems, d, memo, n + 1);
    SitsSplit(s, n, "T", o.text);
    SitsAt(s, n, "T");
    MemoGrows(s, memo, seen, n, n + 1);
    TysPlaced(s, t.elems, d, memo, seen, n + 1);
  }

  lemma RefTypePlaced(s: string, t: Ty, d: Build, memo: Memo, seen: Seen, n: nat)
    requires t.Ref? && WfTy(t) && Printed(s, n, EmitTyNode(t, d, memo, n), memo, seen)
    ensures Done(s, n, NTy(t), EmitTyNode(t, d, memo, n), LevelsTyNode(t, seen))
    decreases t, 1
  {
    hide Sits, EmitTy, EmitTyNode, MaybeCode, MaybeAt, MemoOk, MatchTy, LevelsTy;
    var tag, lt := if t.mutable then "Q" else "R", MaybeCode('L', t.lifetime);
    var n1 := n + 1 + |lt|;
    var o := EmitTy(t.target, d, memo, n1);
    RefTypeText(t, d, memo, n);
    SitsSplit(s, n, tag, lt + o.text);
    SitsAt(s, n, tag);
    SitsSplit(s, n + 1, lt, o.text);
    MemoGrows(s, memo, seen, n, n1);
    TyPlaced(s, t.target, d, memo, seen, n1);
    NoLifetimeAt(s, n1, t.target);
    if t.lifetime.No? {
      NothingCode('L');
      assert n1 == n + 1;
    }
    MaybeEmits(s, n + 1, 'L', t.lifetime);
    RefTypeMatches(s, t, n);
  }

  /** A type does not start like a lifetime. */
  lemma NoLifetimeAt(s: string, p: nat, t: Ty)
    requires p <= |s| && MatchTy(s, p, t).Found?
    ensures !At(s, p, 'L')
  {
    hide MatchTy;
    TyStart(s, p, t);
  }

  lemma RefTypeText(t: Ty, d: Build, memo: Memo, n: nat)
    requires t.Ref?
    ensures var lt := MaybeCode('L', t.lifetime);
      var o := EmitTy(t.target, d, memo, n + 1 + |lt|);
      && EmitTyNode(t, d, memo, n).text == (if t.mutable then "Q" else "R") + (lt + o.text)
      && EmitTyNode(t, d, memo, n).memo == o.memo
  {
    hide EmitTy, MaybeCode;
    var tag, lt := if t.mutable then "Q" else "R", MaybeCode('L', t.lifetime);
    var o := EmitTy(t.target, d, memo, n + 1 + |lt|);
    assert |tag + lt| == 1 + |lt|;
    assert EmitTyNode(t, d, memo, n).text == (tag + lt) + o.text;
  }

  lemma RefTypeMatches(s: string, t: Ty, n: nat)
    requires t.Ref? && At(s, n, if t.mutable then 'Q' else 'R') && MaybeAt(s, n + 1, 'L', t.lifetime).Found?
    requires MatchTy(s, MaybeAt(s, n + 1, 'L', t.lifetime).end, t.target).Found?
    ensures var m := MatchTy(s, MaybeAt(s, n + 1, 'L', t.lifetime).end, t.target);
      MatchTy(s, n, t) == Found(m.end, 1 + m.levels)
  {
    hide MaybeAt;
  }

  lemma NothingCode(tag: char)
    ensures MaybeCode(tag, No) == ""
  {
  }

  lemma {:induction false} TysPlaced(s: string, l: List<Ty>, d: Build, memo: Memo, seen: Seen, n: nat)
    requires WfTys(l) && Printed(s, n, EmitTys(l, d, memo, n), memo, seen)
    ensures var o := EmitTys(l, d, memo, n);
      Placed(s, MatchTys(s, n, l), n + |o.text|, o.memo, LevelsTys(l, seen))
    decreases l, 4
  {
    if l.Nil? {
      hide MemoOk;
      SitsAt(s, n, "E");
      MemoGrows(s, memo, seen, n, n + 1);
    } else {
      TysConsPlaced(s, l, d, memo, seen, n);
    }
  }

  lemma TysConsPlaced(s: string, l: List<Ty>, d: Build, memo: Memo, seen: Seen, n: nat)
    requires l.Cons? && WfTys(l) && Printed(s, n, EmitTys(l, d, memo, n), memo, seen)
    ensures var o := EmitTys(l, d, memo, n);
      Placed(s, MatchTys(s, n, l), n + |o.text|, o.memo, LevelsTys(l, seen))
    decreases l, 3
  {
    hide Sits, EmitTy, EmitTys, MatchTy, MatchTys, MemoOk, Lettered, LevelsTy;
    var o1, c1 := EmitTy(l.head, d, memo, n), LevelsTy(l.head, seen);
    var n1 := n + |o1.text|;
    var o2 := EmitTys(l.tail, d, o1.memo, n1);
    TysText(l, d, memo, n);
    SitsSplit(s, n, o1.text, o2.text);
    TysLettered(l.tail, d, o1.memo, n1);
    LetteredEnds(s, n1, o2.text);
    TyPlaced(s, l.head, d, memo, seen, n);
    TysPlaced(s, l.tail, d, o1.memo, c1.seen, n1);
    TysMatch(s, l, n);
  }

  lemma TysText(l: List<Ty>, d: Build, memo: Memo, n: nat)
    requires l.Cons?
    ensures var o1 := EmitTy(l.head, d, memo, n);
      var o2 := EmitTys(l.tail, d, o1.memo, n + |o1.text|);
      EmitTys(l, d, memo, n) == Out(o1.text + o2.text, o2.memo)
  {
    hide EmitTy;
  }

  lemma TysMatch(s: string, l: List<Ty>, n: nat)
    requires n <= |s| && l.Cons? && MatchTy(s, n, l.head).Found?
    requires MatchTys(s, MatchTy(s, n, l.head).end, l.tail).Found?
    ensures var m := MatchTy(s, n, l.head);
      var m2 := MatchTys(s, m.end, l.tail);
      MatchTys(s, n, l) == Found(m2.end, Max(m.levels, m2.levels))
  {
    hide MatchTy;
  }

  lemma TysStart(s: string, p: nat, l: List<Ty>)
    requires p <= |s| && MatchTys(s, p, l).Found?
    ensures p < |s| && s[p] !in {'G', 'U', 'K', 'L', '_'}
  {
    hide MatchTy;
    if l.Cons? {
      TyStart(s, p, l.head);
    }
  }

  /** The tag, binder, safety and ABI of a function pointer. */
  function FnHead(t: Ty): string
    requires t.FnPtr?
  {
    "F" + (MaybeCode('G', t.binder) + ((if t.isUnsafe then "U" else "") + AbiCode(t.abi)))
  }

  lemma FnPlaced(s: string, t: Ty, d: Build, memo: Memo, seen: Seen, n: nat)
    requires t.FnPtr? && WfTy(t) && Printed(s, n, EmitTyNode(t, d, memo, n), memo, seen)
    ensures Done(s, n, NTy(t), EmitTyNode(t, d, memo, n), LevelsTyNode(t, seen))
    decreases t, 1
  {
    hide Sits, EmitTy, EmitTys, EmitTyNode, FnHead, MatchTys, MatchTy, MaybeCode, AbiCode, MemoOk, FnHeadAt;
    hide LevelsTy, LevelsTys;
    FnCode(t, d, memo, n);
    var head := FnHead(t);
    var n0 := n + |head|;
    var o1, c1 := EmitTys(t.params, d, memo, n0), LevelsTys(t.params, seen);
    var n1 := n0 + |o1.text|;
    var o2 := EmitTy(t.ret, d, o1.memo, n1);
    SitsSplit(s, n, head, o1.text + o2.text);
    SitsSplit(s, n0, o1.text, o2.text);
    TyLettered(t.ret, d, o1.memo, n1);
    LetteredEnds(s, n1, o2.text);
    MemoGrows(s, memo, seen, n, n0);
    TysPlaced(s, t.params, d, memo, seen, n0);
    TyPlaced(s, t.ret, d, o1.memo, c1.seen, n1);
    FnHeadMatches(s, t, n);
    FnMatches(s, t, n, n0);
  }

  lemma FnCode(t: Ty, d: Build, memo: Memo, n: nat)
    requires t.FnPtr?
    ensures var n0 := n + |FnHead(t)|;
      var o1 := EmitTys(t.params, d, memo, n0);
      var o2 := EmitTy(t.ret, d, o1.memo, n0 + |o1.text|);
      EmitTyNode(t, d, memo, n).text == FnHead(t) + (o1.text + o2.text) && EmitTyNode(t, d, memo, n).memo == o2.memo
  {
    hide EmitTy, EmitTys, MaybeCode, AbiCode;
  }

  /** The head of a function pointer stands at n and ends at e. */
  predicate FnHeadAt(s: string, t: Ty, n: nat, e: nat)
    requires t.FnPtr?
  {
    n < |s| && s[n] == 'F' &&
    var q := MaybeAt(s, n + 1, 'G', t.binder);
    q.Found? && At(s, q.end, 'U') == t.isUnsafe &&
    AbiAt(s, if t.isUnsafe then q.end + 1 else q.end, t.abi) == Found(e, 0)
  }

  lemma FnHeadMatches(s: string, t: Ty, n: nat)
    requires t.FnPtr? && Sits(s, n, FnHead(t)) && MatchTys(s, n + |FnHead(t)|, t.params).Found?
    ensures FnHeadAt(s, t, n, n + |FnHead(t)|)
  {
    hide Sits, MaybeCode, AbiCode, MaybeAt, AbiAt, MatchTys;
    var g, u, k := MaybeCode('G', t.binder), if t.isUnsafe then "U" else "", AbiCode(t.abi);
    var q, e := n + 1 + |g|, n + |FnHead(t)|;
    TysStart(s, e, t.params);
    SitsSplit(s, n, "F", g + (u + k));
    SitsAt(s, n, "F");
    SitsSplit(s, n + 1, g, u + k);
    SitsSplit(s, q, u, k);
    AbiHead(s, q + |u|, t.abi);
    assert q + |u| + |k| == e;
    if t.isUnsafe {
      SitsAt(s, q, u);
    }
    AbiEmits(s, q + |u|, t.abi);
    if t.binder.No? {
      NothingCode('G');
    }
    MaybeEmits(s, n + 1, 'G', t.binder);
  }

  /** What stands where an ABI begins is the ABI's own tag, or what follows it. */
  lemma AbiHead(s: string, n: nat, a: AbiName)
    requires Sits(s, n, AbiCode(a)) && !At(s, n + |AbiCode(a)|, 'U') && !At(s, n + |AbiCode(a)|, 'G')
    requires !At(s, n + |AbiCode(a)|, 'K')
    ensures !At(s, n, 'U') && !At(s, n, 'G') && (a.RustAbi? ==> !At(s, n, 'K'))
  {
    if !a.RustAbi? {
      SitsAt(s, n, AbiCode(a));
    }
  }

  lemma FnMatches(s: string, t: Ty, n: nat, n0: nat)
    requires t.FnPtr? && FnHeadAt(s, t, n, n0) && n0 <= |s|
    requires var m := MatchTys(s, n0, t.params); m.Found? && MatchTy(s, m.end, t.ret).Found?
    ensures var m := MatchTys(s, n0, t.params);
      var m2 := MatchTy(s, m.end, t.ret);
      MatchTy(s, n, t) == Found(m2.end, 1 + Max(m.levels, m2.levels)) && s[n] != 'B'
  {
    hide MatchTys, MaybeAt, AbiAt;
  }

  lemma DynPlaced(s: string, t: Ty, d: Build, memo: Memo, seen: Seen, n: nat)
    requires t.Dyn? && WfTy(t) && Printed(s, n, EmitTyNode(t, d, memo, n), memo, seen)
    ensures Done(s, n, NTy(t), EmitTyNode(t, d, memo, n), LevelsTyNode(t, seen))
    decreases t, 1
  {
    hide Sits, EmitBounds, MaybeCode, Text62, MemoOk, EmitTyNode, MatchTy, LevelsBounds;
    var g, lt := MaybeCode('G', t.binder), Text62(t.outlives);
    var n0 := n + 1 + |g|;
    var o := EmitBounds(t.bounds, d, memo, n0);
    DynText(t, d, memo, n);
    SitsSplit(s, n, "D", g + (o.text + ("L" + lt)));
    SitsAt(s, n, "D");
    SitsSplit(s, n + 1, g, o.text + ("L" + lt));
    SitsSplit(s, n0, o.text, "L" + lt);
    SitsSplit(s, n0 + |o.text|, "L", lt);
    SitsAt(s, n0 + |o.text|, "L");
    DynPartsPlaced(s, t, d, memo, seen, n);
  }

  lemma DynPartsPlaced(s: string, t: Ty, d: Build, memo: Memo, seen: Seen, n: nat)
    requires t.Dyn? && WfTy(t) && MemoOk(s, memo, seen, n) && At(s, n, 'D')
    requires var g, lt := MaybeCode('G', t.binder), Text62(t.outlives);
      var n0 := n + 1 + |g|;
      var o := EmitBounds(t.bounds, d, memo, n0);
      && Sits(s, n + 1, g) && Sits(s, n0, o.text)
      && At(s, n0 + |o.text|, 'L') && Sits(s, n0 + |o.text| + 1, lt)
    ensures var n0 := n + 1 + |MaybeCode('G', t.binder)|;
      var o := EmitBounds(t.bounds, d, memo, n0);
      Placed(s, MatchTy(s, n, t), n0 + |o.text| + 1 + |Text62(t.outlives)|, o.memo, LevelsTyNode(t, seen))
    decreases t, 0
  {
    hide Sits, EmitBounds, MatchBounds, MaybeCode, MaybeAt, NumberAt, Text62, MemoOk, MatchTy, LevelsBounds;
    var n0 := n + 1 + |MaybeCode('G', t.binder)|;
    var o, c := EmitBounds(t.bounds, d, memo, n0), LevelsBounds(t.bounds, seen);
    var n1 := n0 + |o.text|;
    MemoGrows(s, memo, seen, n, n0);
    BoundsPlaced(s, t.bounds, d, memo, seen, n0);
    BoundsStart(s, n0, t.bounds);
    if t.binder.No? {
      NothingCode('G');
    }
    MaybeEmits(s, n + 1, 'G', t.binder);
    NumberEmits(s, n1 + 1, t.outlives);
    MemoGrows(s, o.memo, c.seen, n1, n1 + 1 + |Text62(t.outlives)|);
    DynMatches(s, t, n);
  }

  lemma DynText(t: Ty, d: Build, memo: Memo, n: nat)
    requires t.Dyn?
    ensures var g := MaybeCode('G', t.binder);
      var o := EmitBounds(t.bounds, d, memo, n + 1 + |g|);
      && EmitTyNode(t, d, memo, n).text == "D" + (g + (o.text + ("L" + Text62(t.outlives))))
      && EmitTyNode(t, d, memo, n).memo == o.memo
  {
    hide EmitBounds, MaybeCode, Text62;
    var g := MaybeCode('G', t.binder);
    var o := EmitBounds(t.bounds, d, memo, n + 1 + |g|);
    assert |"D" + g| == 1 + |g|;
    assert EmitTyNode(t, d, memo, n).text == ("D" + g) + (o.text + ("L" + Text62(t.outlives)));
  }

  lemma DynMatches(s: string, t: Ty, n: nat)
    requires t.Dyn? && At(s, n, 'D') && MaybeAt(s, n + 1, 'G', t.binder).Found?
    requires var m := MatchBounds(s, MaybeAt(s, n + 1, 'G', t.binder).end, t.bounds);
      m.Found? && At(s, m.end, 'L') && NumberAt(s, m.end + 1, t.outlives).Found?
    ensures var m := MatchBounds(s, MaybeAt(s, n + 1, 'G', t.binder).end, t.bounds);
      MatchTy(s, n, t) == Found(NumberAt(s, m.end + 1, t.outlives).end, 1 + m.levels)
  {
    hide MatchBounds, MaybeAt, NumberAt;
  }

  lemma BoundsStart(s: string, p: nat, l: List<Bound>)
    requires p <= |s| && MatchBounds(s, p, l).Found?
    ensures p < |s| && s[p] !in {'G', 'p'}
  {
    hide MatchTree, MatchBindings;
    if l.Cons? {
      TreeStart(s, p, l.head.path);
    }
  }

  lemma {:induction false} BoundsPlaced(s: string, l: List<Bound>, d: Build, memo: Memo, seen: Seen, n: nat)
    requires WfBounds(l) && Printed(s, n, EmitBounds(l, d, memo, n), memo, seen)
    ensures var o := EmitBounds(l, d, memo, n);
      Placed(s, MatchBounds(s, n, l), n + |o.text|, o.memo, LevelsBounds(l, seen))
    decreases l, 4
  {
    if l.Nil? {
      hide MemoOk;
      SitsAt(s, n, "E");
      MemoGrows(s, memo, seen, n, n + 1);
    } else {
      BoundsConsPlaced(s, l, d, memo, seen, n);
    }
  }

  lemma BoundsConsPlaced(s: string, l: List<Bound>, d: Build, memo: Memo, seen: Seen, n: nat)
    requires l.Cons? && WfBounds(l) && Printed(s, n, EmitBounds(l, d, memo, n), memo, seen)
    ensures var o := EmitBounds(l, d, memo, n);
      Placed(s, MatchBounds(s, n, l), n + |o.text|, o.memo, LevelsBounds(l, seen))
    decreases l, 3
  {
    hide Sits, EmitTree, EmitBindings, EmitBounds, MatchTree, MatchBounds, MatchBindings, MemoOk;
    hide LevelsTree, LevelsBindings;
    var o1, c1 := EmitTree(l.head.path, d, memo, n), LevelsTree(l.head.path, seen);
    var n1 := n + |o1.text|;
    var o2, c2 := EmitBindings(l.head.bindings, d, o1.memo, n1), LevelsBindings(l.head.bindings, c1.seen);
    var n2 := n1 + |o2.text|;
    var o3 := EmitBounds(l.tail, d, o2.memo, n2);
    BoundsText(l, d, memo, n);
    SitsSplit(s, n, o1.text, o2.text + o3.text);
    SitsSplit(s, n1, o2.text, o3.text);
    BoundsLettered(l.tail, d, o2.memo, n2);
    SitsAt(s, n2, o3.text);
    BindingsLettered(s, l.head.bindings, d, o1.memo, n1);
    TreePlaced(s, l.head.path, d, memo, seen, n);
    BindingsPlaced(s, l.head.bindings, d, o1.memo, c1.seen, n1);
    BoundsPlaced(s, l.tail, d, o2.memo, c2.seen, n2);
    BoundsMatch(s, l, n);
  }

  lemma BoundsText(l: List<Bound>, d: Build, memo: Memo, n: nat)
    requires l.Cons?
    ensures var o1 := EmitTree(l.head.path, d, memo, n);
      var o2 := EmitBindings(l.head.bindings, d, o1.memo, n + |o1.text|);
      var o3 := EmitBounds(l.tail, d, o2.memo, n + |o1.text| + |o2.text|);
      EmitBounds(l, d, memo, n) == Out(o1.text + (o2.text + o3.text), o3.memo)
  {
    hide EmitTree, EmitBindings;
  }

  lemma BoundsMatch(s: string, l: List<Bound>, n: nat)
    requires n <= |s| && l.Cons? && MatchTree(s, n, l.head.path).Found?
    requires var m := MatchBindings(s, MatchTree(s, n, l.head.path).end, l.head.bindings);
      m.Found? && MatchBounds(s, m.end, l.tail).Found?
    ensures var m := MatchTree(s, n, l.head.path);
      var m2 := MatchBindings(s, m.end, l.head.bindings);
      var m3 := MatchBounds(s, m2.end, l.tail);
      MatchBounds(s, n, l) == Found(m3.end, Max(Max(m.levels, m2.levels), m3.levels))
  {
    hide MatchTree, MatchBindings;
  }

  /** Bindings, when there are any, start with `p`; so no underscore precedes what follows. */
  lemma BindingsLettered(s: string, l: List<Binding>, d: Build, memo: Memo, n: nat)
    requires var o := EmitBindings(l, d, memo, n);
      Sits(s, n, o.text) && Ends(s, n + |o.text|)
    ensures Ends(s, n)
  {
    hide EmitTy, NameCode;
    if l.Cons? {
      SitsAt(s, n, EmitBindings(l, d, memo, n).text);
    }
  }

  lemma {:induction false} BindingsPlaced(s: string, l: List<Binding>, d: Build, memo: Memo, seen: Seen, n: nat)
    requires WfBindings(l) && Printed(s, n, EmitBindings(l, d, memo, n), memo, seen)
    requires !At(s, n + |EmitBindings(l, d, memo, n).text|, 'p')
    ensures var o := EmitBindings(l, d, memo, n);
      Placed(s, MatchBindings(s, n, l), n + |o.text|, o.memo, LevelsBindings(l, seen))
    decreases l, 4
  {
    if l.Cons? {
      BindingsConsPlaced(s, l, d, memo, seen, n);
    }
  }

  lemma BindingsText(l: List<Binding>, d: Build, memo: Memo, n: nat)
    requires l.Cons?
    ensures var code := NameCode(l.head.name);
      var o1 := EmitTy(l.head.ty, d, memo, n + 1 + |code|);
      var o2 := EmitBindings(l.tail, d, o1.memo, n + 1 + |code| + |o1.text|);
      && EmitBindings(l, d, memo, n).text == "p" + (code + (o1.text + o2.text))
      && EmitBindings(l, d, memo, n).memo == o2.memo
  {
    hide EmitTy, NameCode;
    var code := NameCode(l.head.name);
    var o1 := EmitTy(l.head.ty, d, memo, n + 1 + |code|);
    var o2 := EmitBindings(l.tail, d, o1.memo, n + 1 + |code| + |o1.text|);
    assert |"p" + code| == 1 + |code|;
    assert EmitBindings(l, d, memo, n).text == ("p" + code) + (o1.text + o2.text);
  }

  lemma BindingsConsPlaced(s: string, l: List<Binding>, d: Build, memo: Memo, seen: Seen, n: nat)
    requires l.Cons? && WfBindings(l) && Printed(s, n, EmitBindings(l, d, memo, n), memo, seen)
    requires !At(s, n + |EmitBindings(l, d, memo, n).text|, 'p')
    ensures var o := EmitBindings(l, d, memo, n);
      Placed(s, MatchBindings(s, n, l), n + |o.text|, o.memo, LevelsBindings(l, seen))
    decreases l, 3
  {
    hide Sits, EmitTy, EmitBindings, NameCode, MemoOk, Ends, LevelsBindings;
    var code := NameCode(l.head.name);
    var n0 := n + 1 + |code|;
    var o1 := EmitTy(l.head.ty, d, memo, n0);
    var n1 := n0 + |o1.text|;
    var o2 := EmitBindings(l.tail, d, o1.memo, n1);
    BindingsText(l, d, memo, n);
    SitsSplit(s, n, "p", code + (o1.text + o2.text));
    SitsAt(s, n, "p");
    SitsSplit(s, n + 1, code, o1.text + o2.text);
    SitsSplit(s, n0, o1.text, o2.text);
    BindingsPartsPlaced(s, l, d, memo, seen, n);
  }

  lemma BindingsPartsPlaced(s: string, l: List<Binding>, d: Build, memo: Memo, seen: Seen, n: nat)
    requires l.Cons? && WfBindings(l) && MemoOk(s, memo, seen, n) && At(s, n, 'p')
    requires var code := NameCode(l.head.name);
      var n0 := n + 1 + |code|;
      var o1 := EmitTy(l.head.ty, d, memo, n0);
      var o2 := EmitBindings(l.tail, d, o1.memo, n0 + |o1.text|);
      var e := n0 + |o1.text| + |o2.text|;
      && Sits(s, n + 1, code) && Sits(s, n0, o1.text) && Sits(s, n0 + |o1.text|, o2.text)
      && Ends(s, e) && !At(s, e, 'p')
    ensures var n0 := n + 1 + |NameCode(l.head.name)|;
      var o1 := EmitTy(l.head.ty, d, memo, n0);
      var o2 := EmitBindings(l.tail, d, o1.memo, n0 + |o1.text|);
      Placed(s, MatchBindings(s, n, l), n0 + |o1.text| + |o2.text|, o2.memo, LevelsBindings(l, seen))
    decreases l, 2
  {
    hide Sits, EmitTy, EmitBindings, MatchTy, MatchBindings, NameCode, NameAt, MemoOk, Lettered, LevelsTy;
    var n0 := n + 1 + |NameCode(l.head.name)|;
    var o1, c1 := EmitTy(l.head.ty, d, memo, n0), LevelsTy(l.head.ty, seen);
    var n1 := n0 + |o1.text|;
    TyLettered(l.head.ty, d, memo, n0);
    LetteredEnds(s, n0, o1.text);
    NameEmits(s, n + 1, l.head.name);
    BindingsLettered(s, l.tail, d, o1.memo, n1);
    MemoGrows(s, memo, seen, n, n0);
    TyPlaced(s, l.head.ty, d, memo, seen, n0);
    BindingsPlaced(s, l.tail, d, o1.memo, c1.seen, n1);
    BindingsMatch(s, l, n);
  }

  lemma BindingsMatch(s: string, l: List<Binding>, n: nat)
    requires l.Cons? && At(s, n, 'p') && NameAt(s, n + 1, l.head.name).Found?
    requires var m := MatchTy(s, NameAt(s, n + 1, l.head.name).end, l.head.ty);
      m.Found? && MatchBindings(s, m.end, l.tail).Found?
    ensures var m := MatchTy(s, NameAt(s, n + 1, l.head.name).end, l.head.ty);
      var m2 := MatchBindings(s, m.end, l.tail);
      MatchBindings(s, n, l) == Found(m2.end, Max(m.levels, m2.levels))
  {
    hide MatchTy, NameAt;
  }

  // ---- the round trip ----------------------------------------------------

  /** A printed tree encodes its tree, with the levels of the tree, whatever the build; and
      back references at most double the nesting. */
  lemma MangleMatches(t: Tree, d: Build)
    requires WfTree(t)
    ensures MatchTree(Mangle(t, d), 0, t) == Found(|Mangle(t, d)|, Levels(t))
    ensures Levels(t) <= 2 * Height(t)
  {
    hide EmitTree, MatchTree, Height, LevelsTree;
    var s := Mangle(t, d);
    assert s[0..0 + |s|] == s;
    TreePlaced(s, t, d, map[], map[], 0);
    TreeWithin(t, map[]);
  }

  /** Printing a tree and demangling it gives its reading and consumes the whole text,
      exactly when the nesting stays within the guard; it is rejected otherwise. */
  lemma RoundTrip(t: Tree, d: Build)
    requires WfTree(t)
    ensures var s := Mangle(t, d);
      Demangle(s) == if Levels(t) <= MAX_DEPTH then Ok(Read(t, 0, true), |s|) else Bad
  {
    hide EmitTree, MatchTree, Height, Path, Read, Levels;
    var s := Mangle(t, d);
    MangleMatches(t, d);
    TreeStart(s, 0, t);
    DigitsEndIs(s, 0, 0);
    TreeReads(s, 0, t, 0, 0, true);
  }

  /** The point of demangling: two builds of one tree, with whatever disambiguators of
      whatever lengths, get one identity, though every offset in the two differs; or
      neither gets one. */
  lemma BuildsAgree(t: Tree, d1: Build, d2: Build)
    requires WfTree(t)
    ensures var m1, m2 := MatchTree(Mangle(t, d1), 0, t), MatchTree(Mangle(t, d2), 0, t);
      m1.Found? && m2.Found? && m1.levels == m2.levels
    ensures var r1, r2 := Demangle(Mangle(t, d1)), Demangle(Mangle(t, d2));
      (r1.Ok? && r2.Ok? && r1.value == r2.value) || (r1.Bad? && r2.Bad?)
  {
    hide Mangle, MatchTree, Height, Demangle, Read, Levels;
    MangleMatches(t, d1);
    MangleMatches(t, d2);
    RoundTrip(t, d1);
    RoundTrip(t, d2);
  }
}
