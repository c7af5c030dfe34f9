/** When a string encodes a tree: `MatchTree(s, p, t)` recognizes an encoding of t at p,
    with any disambiguators and with backward references at any place where the grammar
    admits one, and says where it ends and how many nesting levels parsing it takes.
    The theorem of this module: whatever the encoding, the parser reads the tree. */
module V0Match {
  import opened Text
  import opened V0Parser
  import opened V0Syntax

  datatype Match = Found(end: nat, levels: nat) | NotFound {
    predicate IsFailure() { NotFound? }
    function PropagateFailure(): Match
      requires NotFound?
    {
      NotFound
    }
    function Extract(): (nat, nat)
      requires Found?
    {
      (end, levels)
    }
  }

  function Max(a: nat, b: nat): nat {
    if a < b then b else a
  }

  // ---- names and numbers -------------------------------------------------

  /** An encoding of a name: decimal length, optional underscore, the name. */
  function NameAt(s: string, p: nat, n: Name): (m: Match)
    requires p <= |s|
    ensures m.Found? ==> p < m.end <= |s|
  {
    var a := if n.puny then p + 1 else p;
    var len := Dec(|n.text|);
    var e := a + |len|;
    if At(s, p, 'u') != n.puny || e > |s| || s[a..e] != len then NotFound
    else if n.text != "" && e < |s| && IsDigit(s[e]) then NotFound
    else
      var c := if At(s, e, '_') then e + 1 else e;
      if c + |n.text| <= |s| && s[c..c + |n.text|] == n.text then Found(c + |n.text|, 0) else NotFound
  }

  lemma DigitsEndIs(s: string, p: nat, e: nat)
    requires p <= e <= |s| && AllDigits(s[p..e]) && (e < |s| ==> !IsDigit(s[e]))
    ensures DigitsEnd(s, p) == e
    decreases e - p
  {
    if p < e {
      assert s[p..e][0] == s[p];
      assert s[p + 1..e] == s[p..e][1..];
      DigitsEndIs(s, p + 1, e);
    }
  }

  lemma NameReads(s: string, p: nat, n: Name)
    requires p <= |s| && NameAt(s, p, n).Found?
    ensures Ident(s, p) == Ok(NameText(n), NameAt(s, p, n).end)
  {
    hide DecValue, Dec, DigitsEnd, AllDigits;
    var a := if n.puny then p + 1 else p;
    var len := Dec(|n.text|);
    var e := a + |len|;
    assert s[a] == s[a..e][0] == len[0];
    if n.text == "" {
      LengthZero();
    } else {
      assert len[0] != '0';
      DigitsEndIs(s, a, e);
    }
  }

  lemma LengthZero()
    ensures Dec(0) == "0"
  {
  }

  /** A disambiguator of any value. */
  function SlotAt(s: string, p: nat): (m: Match)
    requires p <= |s|
    ensures m.Found? ==> p <= m.end <= |s|
  {
    var r := Disambiguator(s, p);
    if r.Ok? then Found(r.pos, 0) else NotFound
  }

  /** A disambiguator of the given value. */
  function DisAt(s: string, p: nat, n: nat): (m: Match)
    requires p <= |s|
    ensures m.Found? ==> p <= m.end <= |s|
  {
    var r := Disambiguator(s, p);
    if r.Ok? && r.value == n then Found(r.pos, 0) else NotFound
  }

  function NumberAt(s: string, p: nat, n: nat): (m: Match)
    requires p <= |s|
    ensures m.Found? ==> p < m.end <= |s|
  {
    var r := Base62(s, p);
    if r.Ok? && r.value == n then Found(r.pos, 0) else NotFound
  }

  /** An optional number behind a tag. */
  function MaybeAt(s: string, p: nat, tag: char, n: Maybe): (m: Match)
    requires p <= |s|
    ensures m.Found? ==> p <= m.end <= |s|
  {
    if n.Yes? then
      if At(s, p, tag) then NumberAt(s, p + 1, n.n) else NotFound
    else if At(s, p, tag) then NotFound else Found(p, 0)
  }

  function AbiAt(s: string, p: nat, a: AbiName): (m: Match)
    requires p <= |s|
    ensures m.Found? ==> p <= m.end <= |s|
  {
    match a
    case RustAbi => if At(s, p, 'K') then NotFound else Found(p, 0)
    case CAbi => if At(s, p, 'K') && At(s, p + 1, 'C') then Found(p + 2, 0) else NotFound
    case OtherAbi(n) => if At(s, p, 'K') then NameAt(s, p + 1, n) else NotFound
  }

  // ---- trees -------------------------------------------------------------

  /** Where a reference at p leads, when it leads backward. */
  function RefAt(s: string, p: nat): (m: Res<nat>)
    requires p <= |s|
    ensures m.Ok? ==> p < m.pos <= |s| && m.value < p
  {
    if !At(s, p, 'B') then Bad
    else
      var r := Backref(s, p + 1);
      if r.Ok? && r.value < p then r else Bad
  }

  function MatchTree(s: string, p: nat, t: Tree): (m: Match)
    requires p <= |s|
    ensures m.Found? ==> p < m.end <= |s| && m.levels >= 1
    decreases t, p
  {
    if At(s, p, 'B') then
      var r := RefAt(s, p);
      if !r.Ok? then NotFound
      else
        var (_, l) :- MatchTree(s, r.value, t);
        Found(r.pos, 1 + l)
    else
      match t
      case Crate(_, name) =>
        if !At(s, p, 'C') then NotFound
        else
          var (q, _) :- SlotAt(s, p + 1);
          var (q2, _) :- NameAt(s, q, name);
          Found(q2, 1)
      case Inherent(_, home, self) =>
        if !At(s, p, 'M') then NotFound
        else
          var (q, l) :- MatchHome(s, p + 1, home);
          var (q2, l2) :- MatchTy(s, q, self);
          Found(q2, 1 + Max(l, l2))
      case TraitImpl(_, home, self, tr) =>
        if !At(s, p, 'X') then NotFound
        else
          var (q, l) :- MatchHome(s, p + 1, home);
          var (q2, l2) :- MatchTy(s, q, self);
          var (q3, l3) :- MatchTree(s, q2, tr);
          Found(q3, 1 + Max(l, Max(l2, l3)))
      case TraitItem(self, tr) =>
        if !At(s, p, 'Y') then NotFound
        else
          var (q2, l2) :- MatchTy(s, p + 1, self);
          var (q3, l3) :- MatchTree(s, q2, tr);
          Found(q3, 1 + Max(l2, l3))
      case Nested(ns, parent, dis, name) =>
        if !At(s, p, 'N') || !At(s, p + 1, ns) then NotFound
        else
          var (q, l) :- MatchTree(s, p + 2, parent);
          var (q2, _) :- DisAt(s, q, dis);
          var (q3, _) :- NameAt(s, q2, name);
          Found(q3, 1 + l)
      case Generic(base, args) =>
        if !At(s, p, 'I') then NotFound
        else
          var (q, l) :- MatchTree(s, p + 1, base);
          var (q2, l2) :- MatchArgs(s, q, args);
          Found(q2, 1 + Max(l, l2))
  }

  function MatchHome(s: string, p: nat, home: Tree): (m: Match)
    requires p <= |s|
    ensures m.Found? ==> p < m.end <= |s|
    decreases home, |s| + 1
  {
    var (q, _) :- SlotAt(s, p);
    MatchTree(s, q, home)
  }

  function MatchArg(s: string, p: nat, a: Arg): (m: Match)
    requires p <= |s|
    ensures m.Found? ==> p < m.end <= |s|
    decreases a, p
  {
    match a
    case LifetimeArg(idx) => if At(s, p, 'L') then NumberAt(s, p + 1, idx) else NotFound
    case ConstArg(c) => if At(s, p, 'K') then MatchVal(s, p + 1, c) else NotFound
    case TypeArg(t) => MatchTy(s, p, t)
  }

  function MatchArgs(s: string, p: nat, l: List<Arg>): (m: Match)
    requires p <= |s|
    ensures m.Found? ==> p < m.end <= |s|
    decreases l, p
  {
    match l
    case Nil => if At(s, p, 'E') then Found(p + 1, 0) else NotFound
    case Cons(a, rest) =>
      var (q, l1) :- MatchArg(s, p, a);
      var (q2, l2) :- MatchArgs(s, q, rest);
      Found(q2, Max(l1, l2))
  }

  function MatchTy(s: string, p: nat, t: Ty): (m: Match)
    requires p <= |s|
    ensures m.Found? ==> p < m.end <= |s| && m.levels >= 1
    decreases t, p, 1
  {
    if At(s, p, 'B') then
      var r := RefAt(s, p);
      if !r.Ok? then NotFound
      else
        var (_, l) :- MatchTy(s, r.value, t);
        Found(r.pos, 1 + l)
    else
      match t
      case Basic(tag) => if tag in BASIC_TYPES && At(s, p, tag) then Found(p + 1, 1) else NotFound
      case Array(e, n) =>
        if !At(s, p, 'A') then NotFound
        else
          var (q, l) :- MatchTy(s, p + 1, e);
          var (q2, l2) :- MatchVal(s, q, n);
          Found(q2, 1 + Max(l, l2))
      case Slice(e) =>
        if !At(s, p, 'S') then NotFound
        else
          var (q, l) :- MatchTy(s, p + 1, e);
          Found(q, 1 + l)
      case Tuple(es) =>
        if !At(s, p, 'T') then NotFound
        else
          var (q, l) :- MatchTys(s, p + 1, es);
          Found(q, 1 + l)
      case Ref(mutable, lt, e) =>
        if !At(s, p, if mutable then 'Q' else 'R') then NotFound
        else
          var (q, _) :- MaybeAt(s, p + 1, 'L', lt);
          var (q2, l) :- MatchTy(s, q, e);
          Found(q2, 1 + l)
      case Ptr(mutable, e) =>
        if !At(s, p, if mutable then 'O' else 'P') then NotFound
        else
          var (q, l) :- MatchTy(s, p + 1, e);
          Found(q, 1 + l)
      case FnPtr(_, _, _, _, _) =>
        if !At(s, p, 'F') then NotFound
        else
          var (q, l) :- MatchFn(s, p, t);
          Found(q, 1 + l)
      case Dyn(binder, bounds, lt) =>
        if !At(s, p, 'D') then NotFound
        else
          var (q, _) :- MaybeAt(s, p + 1, 'G', binder);
          var (q2, l) :- MatchBounds(s, q, bounds);
          if !At(s, q2, 'L') then NotFound
          else
            var (q3, _) :- NumberAt(s, q2 + 1, lt);
            Found(q3, 1 + l)
      case Named(path) =>
        var (q, l) :- MatchTree(s, p, path);
        Found(q, 1 + l)
  }

  /** A function pointer type, its tag at p. */
  function MatchFn(s: string, p: nat, t: Ty): (m: Match)
    requires p < |s| && t.FnPtr?
    ensures m.Found? ==> p < m.end <= |s|
    decreases t, p, 0
  {
    var (q, _) :- MaybeAt(s, p + 1, 'G', t.binder);
    if At(s, q, 'U') != t.isUnsafe then NotFound
    else
      var (q2, _) :- AbiAt(s, if t.isUnsafe then q + 1 else q, t.abi);
      var (q3, l) :- MatchTys(s, q2, t.params);
      var (q4, l2) :- MatchTy(s, q3, t.ret);
      Found(q4, Max(l, l2))
  }

  function MatchTys(s: string, p: nat, l: List<Ty>): (m: Match)
    requires p <= |s|
    ensures m.Found? ==> p < m.end <= |s|
    decreases l, p
  {
    match l
    case Nil => if At(s, p, 'E') then Found(p + 1, 0) else NotFound
    case Cons(t, rest) =>
      var (q, l1) :- MatchTy(s, p, t);
      var (q2, l2) :- MatchTys(s, q, rest);
      Found(q2, Max(l1, l2))
  }

  function MatchBound(s: string, p: nat, t: Bound): (m: Match)
    requires p <= |s|
    ensures m.Found? ==> p < m.end <= |s|
    decreases t, p
  {
    var (q, l) :- MatchTree(s, p, t.path);
    var (q2, l2) :- MatchBindings(s, q, t.bindings);
    Found(q2, Max(l, l2))
  }

  function MatchBounds(s: string, p: nat, l: List<Bound>): (m: Match)
    requires p <= |s|
    ensures m.Found? ==> p < m.end <= |s|
    decreases l, p
  {
    match l
    case Nil => if At(s, p, 'E') then Found(p + 1, 0) else NotFound
    case Cons(t, rest) =>
      var (q, l1) :- MatchBound(s, p, t);
      var (q2, l2) :- MatchBounds(s, q, rest);
      Found(q2, Max(l1, l2))
  }

  /** Associated-type bindings: each behind a `p`, until there is none. */
  function MatchBindings(s: string, p: nat, l: List<Binding>): (m: Match)
    requires p <= |s|
    ensures m.Found? ==> p <= m.end <= |s|
    decreases l, p
  {
    match l
    case Nil => if At(s, p, 'p') then NotFound else Found(p, 0)
    case Cons(x, rest) =>
      if !At(s, p, 'p') then NotFound
      else
        var (q, _) :- NameAt(s, p + 1, x.name);
        var (q2, l1) :- MatchTy(s, q, x.ty);
        var (q3, l2) :- MatchBindings(s, q2, rest);
        Found(q3, Max(l1, l2))
  }

  function MatchVal(s: string, p: nat, c: Val): (m: Match)
    requires p <= |s|
    ensures m.Found? ==> p < m.end <= |s|
    decreases c, p
  {
    if At(s, p, 'B') then
      var r := RefAt(s, p);
      if !r.Ok? then NotFound
      else
        var (_, l) :- MatchVal(s, r.value, c);
        Found(r.pos, l)
    else
      match c
      case Hole => if At(s, p, 'p') then Found(p + 1, 0) else NotFound
      case Value(ty, neg, hex) =>
        if At(s, p, 'p') then NotFound
        else
          var (q, l) :- MatchTy(s, p, ty);
          var (q2, _) :- HexAt(s, q, neg, hex);
          Found(q2, l)
  }

  function HexAt(s: string, p: nat, neg: bool, hex: string): (m: Match)
    requires p <= |s|
    ensures m.Found? ==> p < m.end <= |s|
  {
    var a := if neg then p + 1 else p;
    if At(s, p, 'n') != neg then NotFound
    else
      var z := Underscore(s, a);
      if z < |s| && s[a..z] == hex && AllHex(hex) then Found(z + 1, 0)
      else NotFound
  }

  // ---- the parser reads what is encoded ----------------------------------

  /** What parsing at depth d must give: the reading, unless the levels run out. */
  function Expect<T>(d: nat, m: Match, value: T): Res<T>
    requires m.Found?
  {
    if d + m.levels <= MAX_DEPTH then Ok(value, m.end) else Bad
  }

  /** The match of a node, less the level that entering the node takes. */
  function Inner(m: Match): Match
    requires m.Found? && m.levels >= 1
  {
    Found(m.end, m.levels - 1)
  }

  lemma {:induction false} TreeReads(s: string, p: nat, t: Tree, d: nat, b: nat, v: bool)
    requires p <= |s| && d <= MAX_DEPTH && MatchTree(s, p, t).Found?
    ensures Path(s, p, d, b, v) == Expect(d, MatchTree(s, p, t), Read(t, b, v))
    decreases t, p, 2
  {
    hide MatchTree, PathBody, Read;
    if d < MAX_DEPTH {
      NodeReads(s, p, t, d + 1, b, v);
    }
  }

  lemma {:induction false} NodeReads(s: string, p: nat, t: Tree, d: nat, b: nat, v: bool)
    requires p <= |s| && d <= MAX_DEPTH && MatchTree(s, p, t).Found?
    ensures PathBody(s, p, d, b, v) == Expect(d, Inner(MatchTree(s, p, t)), Read(t, b, v))
    decreases t, p, 1
  {
    hide MatchTree, PathBody, Read;
    if At(s, p, 'B') {
      TreeRefReads(s, p, t, d, b, v);
    } else {
      match t
      case Crate(_, _) => CrateReads(s, p, t, d, b, v);
      case Inherent(_, _, _) => ImplReads(s, p, t, d, b, v);
      case TraitImpl(_, _, _, _) => ImplReads(s, p, t, d, b, v);
      case TraitItem(_, _) => ImplReads(s, p, t, d, b, v);
      case Nested(_, _, _, _) => NestedReads(s, p, t, d, b, v);
      case Generic(_, _) => GenericReads(s, p, t, d, b, v);
    }
  }

  lemma CrateReads(s: string, p: nat, t: Tree, d: nat, b: nat, v: bool)
    requires p <= |s| && d <= MAX_DEPTH && !At(s, p, 'B') && MatchTree(s, p, t).Found? && t.Crate?
    ensures PathBody(s, p, d, b, v) == Expect(d, Inner(MatchTree(s, p, t)), Read(t, b, v))
  {
    hide Ident, Disambiguator, NameText, SlotAt, NameAt;
    SlotReads(s, p + 1);
    NameReads(s, SlotAt(s, p + 1).end, t.name);
  }

  lemma TreeRefReads(s: string, p: nat, t: Tree, d: nat, b: nat, v: bool)
    requires p <= |s| && d <= MAX_DEPTH && At(s, p, 'B') && MatchTree(s, p, t).Found?
    ensures PathBody(s, p, d, b, v) == Expect(d, Inner(MatchTree(s, p, t)), Read(t, b, v))
    decreases t, p, 0
  {
    hide Path, Read, Backref;
    TreeReads(s, RefAt(s, p).value, t, d, b, v);
    RefReads(s, p);
  }

  lemma ImplReads(s: string, p: nat, t: Tree, d: nat, b: nat, v: bool)
    requires p <= |s| && d <= MAX_DEPTH && !At(s, p, 'B') && MatchTree(s, p, t).Found?
    requires t.Inherent? || t.TraitImpl? || t.TraitItem?
    ensures PathBody(s, p, d, b, v) == Expect(d, Inner(MatchTree(s, p, t)), Read(t, b, v))
    decreases t, p, 0
  {
    hide Path, Type, ReadTy, MatchTy, ImplPath, MatchHome;
    var q := p + 1;
    if !t.TraitItem? {
      HomeReads(s, q, t.home, d, b);
      q := MatchHome(s, q, t.home).end;
    }
    TyReads(s, q, t.self, d, b);
    if !t.Inherent? {
      TreeReads(s, MatchTy(s, q, t.self).end, t.tr, d, b, false);
    }
  }

  lemma NestedReads(s: string, p: nat, t: Tree, d: nat, b: nat, v: bool)
    requires p <= |s| && d <= MAX_DEPTH && !At(s, p, 'B') && MatchTree(s, p, t).Found? && t.Nested?
    ensures PathBody(s, p, d, b, v) == Expect(d, Inner(MatchTree(s, p, t)), Read(t, b, v))
    decreases t, p, 0
  {
    hide Path, NestedText, Ident, Disambiguator, NameText, DisAt, NameAt;
    TreeReads(s, p + 2, t.parent, d, b, v);
    var q := MatchTree(s, p + 2, t.parent).end;
    DisReads(s, q, t.dis);
    NameReads(s, DisAt(s, q, t.dis).end, t.name);
  }

  lemma GenericReads(s: string, p: nat, t: Tree, d: nat, b: nat, v: bool)
    requires p <= |s| && d <= MAX_DEPTH && !At(s, p, 'B') && MatchTree(s, p, t).Found? && t.Generic?
    ensures PathBody(s, p, d, b, v) == Expect(d, Inner(MatchTree(s, p, t)), Read(t, b, v))
    decreases t, p, 0
  {
    hide Path, GenericText, MatchArgs, ReadArgs, GenericArgs;
    TreeReads(s, p + 1, t.base, d, b, v);
    ArgsRead(s, MatchTree(s, p + 1, t.base).end, t.args, d, b);
  }

  lemma RefReads(s: string, p: nat)
    requires p <= |s| && RefAt(s, p).Ok?
    ensures Backref(s, p + 1) == RefAt(s, p)
  {
  }

  lemma SlotReads(s: string, p: nat)
    requires p <= |s| && SlotAt(s, p).Found?
    ensures Disambiguator(s, p).Ok? && Disambiguator(s, p).pos == SlotAt(s, p).end
  {
  }

  lemma DisReads(s: string, p: nat, n: nat)
    requires p <= |s| && DisAt(s, p, n).Found?
    ensures Disambiguator(s, p) == Ok(n, DisAt(s, p, n).end)
  {
  }

  lemma HomeReads(s: string, p: nat, home: Tree, d: nat, b: nat)
    requires p <= |s| && d <= MAX_DEPTH && MatchHome(s, p, home).Found?
    ensures ImplPath(s, p, d, b) == Expect(d, MatchHome(s, p, home), ())
    decreases home, |s| + 1
  {
    hide Disambiguator;
    SlotReads(s, p);
    TreeReads(s, SlotAt(s, p).end, home, d, b, false);
  }

  lemma NumberReads(s: string, p: nat, n: nat)
    requires p <= |s| && NumberAt(s, p, n).Found?
    ensures Base62(s, p) == Ok(n, NumberAt(s, p, n).end)
  {
  }

  lemma BinderReads(s: string, p: nat, n: Maybe, b: nat)
    requires p <= |s| && MaybeAt(s, p, 'G', n).Found?
    ensures Binder(s, p, b) == Ok(Binders(n, b), MaybeAt(s, p, 'G', n).end)
  {
  }

  lemma AbiReads(s: string, p: nat, a: AbiName)
    requires p <= |s| && AbiAt(s, p, a).Found?
    ensures Abi(s, p) == Ok(AbiText(a), AbiAt(s, p, a).end)
  {
    hide NameAt, Ident, NameText;
    if a.OtherAbi? {
      NameReads(s, p + 1, a.name);
      assert !At(s, p + 1, 'C') by { NameStart(s, p + 1, a.name); }
    }
  }

  lemma NameStart(s: string, p: nat, n: Name)
    requires p <= |s| && NameAt(s, p, n).Found?
    ensures p < |s| && (s[p] == 'u' || IsDigit(s[p]))
  {
    if !n.puny {
      assert s[p] == s[p..p + |Dec(|n.text|)|][0];
    }
  }

  lemma {:induction false} ArgReads(s: string, p: nat, a: Arg, d: nat, b: nat)
    requires p <= |s| && d <= MAX_DEPTH && MatchArg(s, p, a).Found?
    ensures GenericArg(s, p, d, b) == Expect(d, MatchArg(s, p, a), ReadArg(a, b))
    decreases a, p
  {
    hide Base62, MatchTy, MatchVal, Type, Const, ReadTy, ReadVal, LifetimeText;
    match a
    case LifetimeArg(idx) =>
      NumberReads(s, p + 1, idx);
    case ConstArg(c) =>
      ValReads(s, p + 1, c, d, b, |s|);
    case TypeArg(t) =>
      TyStart(s, p, t);
      TyReads(s, p, t, d, b);
  }

  lemma {:induction false} ArgsRead(s: string, p: nat, l: List<Arg>, d: nat, b: nat)
    requires p <= |s| && d <= MAX_DEPTH && MatchArgs(s, p, l).Found?
    ensures GenericArgs(s, p, d, b) == Expect(d, MatchArgs(s, p, l), ReadArgs(l, b))
    decreases l, p
  {
    hide MatchArg, GenericArg, ReadArg;
    if l.Cons? {
      ArgReads(s, p, l.head, d, b);
      ArgStart(s, p, l.head);
      ArgsRead(s, MatchArg(s, p, l.head).end, l.tail, d, b);
    }
  }

  // Encodings start with a tag of their own kind.

  lemma TreeStart(s: string, p: nat, t: Tree)
    requires p <= |s| && MatchTree(s, p, t).Found?
    ensures p < |s| && s[p] in {'B', 'C', 'M', 'X', 'Y', 'N', 'I'}
  {
    hide SlotAt, NameAt, MatchHome, MatchTy, MatchArgs, DisAt, RefAt;
  }

  lemma TyStart(s: string, p: nat, t: Ty)
    requires p <= |s| && MatchTy(s, p, t).Found?
    ensures p < |s|
    ensures s[p] in BASIC_TYPES || s[p] in {'A', 'S', 'T', 'R', 'Q', 'P', 'O', 'F', 'D', 'B', 'C', 'M', 'X', 'Y', 'N', 'I'}
  {
    hide MatchTree, MatchTys, MatchBounds, MatchVal, MaybeAt, AbiAt, NumberAt, RefAt, MatchFn;
    if t.Named? && !At(s, p, 'B') {
      TreeStart(s, p, t.path);
    }
  }

  lemma ArgStart(s: string, p: nat, a: Arg)
    requires p <= |s| && MatchArg(s, p, a).Found?
    ensures p < |s| && s[p] != 'E'
  {
    hide MatchTy, MatchVal, NumberAt;
    if a.TypeArg? {
      TyStart(s, p, a.ty);
    }
  }

  lemma {:induction false} TyReads(s: string, p: nat, t: Ty, d: nat, b: nat)
    requires p <= |s| && d <= MAX_DEPTH && MatchTy(s, p, t).Found?
    ensures Type(s, p, d, b) == Expect(d, MatchTy(s, p, t), ReadTy(t, b))
    decreases t, p, 2
  {
    hide MatchTy, TypeBody, ReadTy;
    if d < MAX_DEPTH {
      TyNodeReads(s, p, t, d + 1, b);
    }
  }

  lemma {:induction false} TyNodeReads(s: string, p: nat, t: Ty, d: nat, b: nat)
    requires p <= |s| && d <= MAX_DEPTH && MatchTy(s, p, t).Found?
    ensures TypeBody(s, p, d, b) == Expect(d, Inner(MatchTy(s, p, t)), ReadTy(t, b))
    decreases t, p, 1
  {
    hide MatchTy, TypeBody, ReadTy;
    if At(s, p, 'B') {
      TyRefReads(s, p, t, d, b);
    } else {
      match t
      case Basic(_) => BasicReads(s, p, t, d, b);
      case Array(_, _) => ArrayReads(s, p, t, d, b);
      case Slice(_) => SliceReads(s, p, t, d, b);
      case Ptr(_, _) => PtrReads(s, p, t, d, b);
      case Tuple(_) => TupleReads(s, p, t, d, b);
      case Ref(_, _, _) => RefTypeReads(s, p, t, d, b);
      case FnPtr(_, _, _, _, _) => FnPtrReads(s, p, t, d, b);
      case Dyn(_, _, _) => DynReads(s, p, t, d, b);
      case Named(_) => NamedReads(s, p, t, d, b);
    }
  }

  lemma BasicReads(s: string, p: nat, t: Ty, d: nat, b: nat)
    requires p <= |s| && d <= MAX_DEPTH && !At(s, p, 'B') && MatchTy(s, p, t).Found? && t.Basic?
    ensures TypeBody(s, p, d, b) == Expect(d, Inner(MatchTy(s, p, t)), ReadTy(t, b))
  {
  }

  lemma FnPtrReads(s: string, p: nat, t: Ty, d: nat, b: nat)
    requires p <= |s| && d <= MAX_DEPTH && !At(s, p, 'B') && MatchTy(s, p, t).Found? && t.FnPtr?
    ensures TypeBody(s, p, d, b) == Expect(d, Inner(MatchTy(s, p, t)), ReadTy(t, b))
    decreases t, p, 0, 1
  {
    hide FnSig, MatchFn, ReadTy;
    FnReads(s, p, t, d, b);
  }

  lemma TyRefReads(s: string, p: nat, t: Ty, d: nat, b: nat)
    requires p <= |s| && d <= MAX_DEPTH && At(s, p, 'B') && MatchTy(s, p, t).Found?
    ensures TypeBody(s, p, d, b) == Expect(d, Inner(MatchTy(s, p, t)), ReadTy(t, b))
    decreases t, p, 0
  {
    hide Type, ReadTy, Backref, RefAt;
    RefReads(s, p);
    TyReads(s, RefAt(s, p).value, t, d, b);
  }

  lemma ArrayReads(s: string, p: nat, t: Ty, d: nat, b: nat)
    requires p <= |s| && d <= MAX_DEPTH && !At(s, p, 'B') && MatchTy(s, p, t).Found? && t.Array?
    ensures TypeBody(s, p, d, b) == Expect(d, Inner(MatchTy(s, p, t)), ReadTy(t, b))
    decreases t, p, 0
  {
    hide Type, MatchVal, ReadVal, Const;
    TyReads(s, p + 1, t.elem, d, b);
    ValReads(s, MatchTy(s, p + 1, t.elem).end, t.len, d, b, |s|);
  }

  lemma SliceReads(s: string, p: nat, t: Ty, d: nat, b: nat)
    requires p <= |s| && d <= MAX_DEPTH && !At(s, p, 'B') && MatchTy(s, p, t).Found? && t.Slice?
    ensures TypeBody(s, p, d, b) == Expect(d, Inner(MatchTy(s, p, t)), ReadTy(t, b))
    decreases t, p, 0
  {
    hide Type, MatchVal, ReadVal, Const;
    TyReads(s, p + 1, t.elem, d, b);
  }

  lemma PtrReads(s: string, p: nat, t: Ty, d: nat, b: nat)
    requires p <= |s| && d <= MAX_DEPTH && !At(s, p, 'B') && MatchTy(s, p, t).Found? && t.Ptr?
    ensures TypeBody(s, p, d, b) == Expect(d, Inner(MatchTy(s, p, t)), ReadTy(t, b))
    decreases t, p, 0
  {
    hide Type, MatchVal, ReadVal, Const, Path, RefType, Types, FnSig, DynBounds, Backref, MatchTree, MatchTys, MatchFn, MatchBounds, MaybeAt, RefAt;
    TyReads(s, p + 1, t.target, d, b);
  }

  lemma TupleReads(s: string, p: nat, t: Ty, d: nat, b: nat)
    requires p <= |s| && d <= MAX_DEPTH && !At(s, p, 'B') && MatchTy(s, p, t).Found? && t.Tuple?
    ensures TypeBody(s, p, d, b) == Expect(d, Inner(MatchTy(s, p, t)), ReadTy(t, b))
    decreases t, p, 0
  {
    hide Types, MatchTys, ReadTys, TupleText;
    TysRead(s, p + 1, t.elems, d, b);
  }

  lemma NamedReads(s: string, p: nat, t: Ty, d: nat, b: nat)
    requires p <= |s| && d <= MAX_DEPTH && !At(s, p, 'B') && MatchTy(s, p, t).Found? && t.Named?
    ensures TypeBody(s, p, d, b) == Expect(d, Inner(MatchTy(s, p, t)), ReadTy(t, b))
    decreases t, p, 0
  {
    hide Path, MatchTree, Read;
    TreeStart(s, p, t.path);
    TreeReads(s, p, t.path, d, b, false);
  }

  lemma RefTypeReads(s: string, p: nat, t: Ty, d: nat, b: nat)
    requires p <= |s| && d <= MAX_DEPTH && !At(s, p, 'B') && MatchTy(s, p, t).Found? && t.Ref?
    ensures TypeBody(s, p, d, b) == Expect(d, Inner(MatchTy(s, p, t)), ReadTy(t, b))
    decreases t, p, 0
  {
    hide Base62, LifetimeText, Type;
    var q := MaybeAt(s, p + 1, 'L', t.lifetime).end;
    if t.lifetime.Yes? {
      NumberReads(s, p + 2, t.lifetime.n);
    }
    TyReads(s, q, t.target, d, b);
  }

  lemma FnReads(s: string, p: nat, t: Ty, d: nat, b: nat)
    requires p < |s| && d <= MAX_DEPTH && t.FnPtr? && MatchFn(s, p, t).Found?
    ensures FnSig(s, p + 1, d, b) == Expect(d, MatchFn(s, p, t), ReadTy(t, b))
    decreases t, p, 0, 0
  {
    hide MaybeAt, AbiAt, Binder, Abi, Types, Type, MatchTy, MatchTys, FnText, ReadTys, AbiText, Binders;
    BinderReads(s, p + 1, t.binder, b);
    var q := MaybeAt(s, p + 1, 'G', t.binder).end;
    var q1 := if t.isUnsafe then q + 1 else q;
    AbiReads(s, q1, t.abi);
    var q2 := AbiAt(s, q1, t.abi).end;
    var inner := Binders(t.binder, b);
    TysRead(s, q2, t.params, d, inner);
    TyReads(s, MatchTys(s, q2, t.params).end, t.ret, d, inner);
  }

  lemma DynReads(s: string, p: nat, t: Ty, d: nat, b: nat)
    requires p <= |s| && d <= MAX_DEPTH && !At(s, p, 'B') && MatchTy(s, p, t).Found? && t.Dyn?
    ensures TypeBody(s, p, d, b) == Expect(d, Inner(MatchTy(s, p, t)), ReadTy(t, b))
    decreases t, p, 0
  {
    hide MaybeAt, NumberAt, Binder, Base62, DynTraits, MatchBounds, ReadBounds, Join, LifetimeText, Binders;
    BinderReads(s, p + 1, t.binder, b);
    var q := MaybeAt(s, p + 1, 'G', t.binder).end;
    BoundsRead(s, q, t.bounds, d, Binders(t.binder, b));
    NumberReads(s, MatchBounds(s, q, t.bounds).end + 1, t.outlives);
  }

  lemma {:induction false} TysRead(s: string, p: nat, l: List<Ty>, d: nat, b: nat)
    requires p <= |s| && d <= MAX_DEPTH && MatchTys(s, p, l).Found?
    ensures Types(s, p, d, b) == Expect(d, MatchTys(s, p, l), ReadTys(l, b))
    decreases l, p
  {
    hide MatchTy, Type, ReadTy;
    if l.Cons? {
      TyReads(s, p, l.head, d, b);
      TyStart(s, p, l.head);
      TysRead(s, MatchTy(s, p, l.head).end, l.tail, d, b);
    }
  }

  lemma {:induction false} BoundReads(s: string, p: nat, t: Bound, d: nat, b: nat)
    requires p <= |s| && d <= MAX_DEPTH && MatchBound(s, p, t).Found?
    ensures DynTrait(s, p, d, b) == Expect(d, MatchBound(s, p, t), ReadBound(t, b))
    decreases t, p
  {
    hide MatchTree, Path, Read, MatchBindings, Bindings, ReadBindings, TraitText;
    TreeReads(s, p, t.path, d, b, false);
    BindingsRead(s, MatchTree(s, p, t.path).end, t.bindings, d, b);
  }

  lemma {:induction false} BoundsRead(s: string, p: nat, l: List<Bound>, d: nat, b: nat)
    requires p <= |s| && d <= MAX_DEPTH && MatchBounds(s, p, l).Found?
    ensures DynTraits(s, p, d, b) == Expect(d, MatchBounds(s, p, l), ReadBounds(l, b))
    decreases l, p
  {
    hide MatchTree, MatchBindings, DynTrait, ReadBound;
    if l.Cons? {
      BoundReads(s, p, l.head, d, b);
      TreeStart(s, p, l.head.path);
      BoundsRead(s, MatchBound(s, p, l.head).end, l.tail, d, b);
    }
  }

  lemma {:induction false} BindingsRead(s: string, p: nat, l: List<Binding>, d: nat, b: nat)
    requires p <= |s| && d <= MAX_DEPTH && MatchBindings(s, p, l).Found?
    ensures Bindings(s, p, d, b) == Expect(d, MatchBindings(s, p, l), ReadBindings(l, b))
    decreases l, p
  {
    hide MatchTy, Type, ReadTy, NameAt, Ident, NameText;
    if l.Cons? {
      NameReads(s, p + 1, l.head.name);
      var q := NameAt(s, p + 1, l.head.name).end;
      TyReads(s, q, l.head.ty, d, b);
      BindingsRead(s, MatchTy(s, q, l.head.ty).end, l.tail, d, b);
    }
  }

  lemma {:induction false} ValReads(s: string, p: nat, c: Val, d: nat, b: nat, fuel: nat)
    requires p <= |s| && d <= MAX_DEPTH && MatchVal(s, p, c).Found? && fuel >= p
    ensures Const(s, p, d, b, fuel) == Expect(d, MatchVal(s, p, c), ReadVal(c, b))
    decreases c, p
  {
    hide MatchTy, Type, ReadTy, Backref, ConstText, HexAt, ConstData;
    if At(s, p, 'B') {
      ValReads(s, RefAt(s, p).value, c, d, b, fuel - 1);
      RefReads(s, p);
    } else if c.Value? {
      TyReads(s, p, c.ty, d, b);
      HexReads(s, MatchTy(s, p, c.ty).end, ReadTy(c.ty, b), c.neg, c.hex);
    }
  }

  lemma HexReads(s: string, p: nat, ty: string, neg: bool, hex: string)
    requires p <= |s| && HexAt(s, p, neg, hex).Found?
    ensures AllHex(hex)
    ensures ConstData(s, p, ty) == Ok(ConstText(ty, neg, hex), HexAt(s, p, neg, hex).end)
  {
    hide ConstText;
  }

  /** Two symbols that encode the same tree demangle alike, whatever their crate and
      impl disambiguators and wherever their references point. */
  lemma SameTreeSameText(s1: string, s2: string, t: Tree)
    requires MatchTree(s1, 0, t).Found? && MatchTree(s1, 0, t).levels <= MAX_DEPTH
    requires MatchTree(s2, 0, t).Found? && MatchTree(s2, 0, t).levels <= MAX_DEPTH
    ensures Demangle(s1).Ok? && Demangle(s2).Ok?
    ensures Demangle(s1).value == Demangle(s2).value == Read(t, 0, true)
  {
    hide MatchTree, Path, Read;
    TreeStart(s1, 0, t);
    TreeStart(s2, 0, t);
    DigitsEndIs(s1, 0, 0);
    DigitsEndIs(s2, 0, 0);
    TreeReads(s1, 0, t, 0, 0, true);
    TreeReads(s2, 0, t, 0, 0, true);
  }
}
