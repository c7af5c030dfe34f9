/** A mangler in the manner of the compiler: it prints a tree of the grammar, replaces
    whatever it has printed before by a back reference, and takes the build's choice of
    disambiguators as a parameter. Demangling what it prints gives the tree's reading. */
module V0Mangler {
  import opened Text
  import opened V0Parser
  import opened V0Syntax
  import opened V0Match

  // ---- printing ----------------------------------------------------------

  function Char62(d: nat): (c: char)
    requires d < 62
    ensures IsBase62(c) && Digit62(c) == d
  {
    if d < 10 then '0' + d as char
    else if d < 36 then 'a' + (d - 10) as char
    else 'A' + (d - 36) as char
  }

  function Digits62(n: nat): (s: string)
    ensures s != [] && (forall i :: 0 <= i < |s| ==> IsBase62(s[i]))
    ensures Value62(s) == n
  {
    if n < 62 then
      var s := [Char62(n)];
      assert s[..0] == [];
      s
    else
      var s := Digits62(n / 62) + [Char62(n % 62)];
      assert s[..|s| - 1] == Digits62(n / 62);
      s
  }

  function Text62(n: nat): (s: string)
    ensures s != []
  {
    if n == 0 then "_" else Digits62(n - 1) + "_"
  }

  function SlotText(m: Maybe): string {
    if m.Yes? then "s" + Text62(m.n) else ""
  }

  function DisText(n: nat): string {
    if n == 0 then "" else "s" + Text62(n - 1)
  }

  function NameCode(n: Name): (s: string)
    ensures s != []
  {
    (if n.puny then "u" else "") + Dec(|n.text|)
    + (if n.text != "" && (IsDigit(n.text[0]) || n.text[0] == '_') then "_" else "") + n.text
  }

  function MaybeCode(tag: char, m: Maybe): string {
    if m.Yes? then [tag] + Text62(m.n) else ""
  }

  function AbiCode(a: AbiName): string {
    match a
    case RustAbi => ""
    case CAbi => "KC"
    case OtherAbi(n) => "K" + NameCode(n)
  }

  /** What can be referred back to. */
  datatype Node = NTree(tree: Tree) | NTy(ty: Ty) | NVal(val: Val)

  /** Where each node was first printed. */
  type Memo = map<Node, nat>

  /** The build's disambiguator for each slot. */
  type Build = nat -> Maybe

  datatype Out = Out(text: string, memo: Memo)

  function RefCode(off: nat): string {
    "B" + Text62(off)
  }

  /** Prints t, to start at offset n. */
  function EmitTree(t: Tree, d: Build, memo: Memo, n: nat): Out
    decreases t, 1
  {
    if NTree(t) in memo then Out(RefCode(memo[NTree(t)]), memo)
    else
      var o := EmitNode(t, d, memo, n);
      Out(o.text, o.memo[NTree(t) := n])
  }

  function EmitNode(t: Tree, d: Build, memo: Memo, n: nat): Out
    decreases t, 0
  {
    match t
    case Crate(slot, name) => Out("C" + (SlotText(d(slot)) + NameCode(name)), memo)
    case Inherent(slot, home, self) =>
      var head := "M" + SlotText(d(slot));
      var o1 := EmitTree(home, d, memo, n + |head|);
      var o2 := EmitTy(self, d, o1.memo, n + |head| + |o1.text|);
      Out(head + (o1.text + o2.text), o2.memo)
    case TraitImpl(slot, home, self, tr) =>
      var head := "X" + SlotText(d(slot));
      var o1 := EmitTree(home, d, memo, n + |head|);
      var o2 := EmitTy(self, d, o1.memo, n + |head| + |o1.text|);
      var o3 := EmitTree(tr, d, o2.memo, n + |head| + |o1.text| + |o2.text|);
      Out(head + (o1.text + (o2.text + o3.text)), o3.memo)
    case TraitItem(self, tr) =>
      var o2 := EmitTy(self, d, memo, n + 1);
      var o3 := EmitTree(tr, d, o2.memo, n + 1 + |o2.text|);
      Out("Y" + (o2.text + o3.text), o3.memo)
    case Nested(ns, parent, dis, name) =>
      var o := EmitTree(parent, d, memo, n + 2);
      Out(['N', ns] + (o.text + (DisText(dis) + NameCode(name))), o.memo)
    case Generic(base, args) =>
      var o1 := EmitTree(base, d, memo, n + 1);
      var o2 := EmitArgs(args, d, o1.memo, n + 1 + |o1.text|);
      Out("I" + (o1.text + o2.text), o2.memo)
  }

  function EmitArg(a: Arg, d: Build, memo: Memo, n: nat): Out
    decreases a, 0
  {
    match a
    case LifetimeArg(idx) => Out("L" + Text62(idx), memo)
    case ConstArg(c) =>
      var o := EmitVal(c, d, memo, n + 1);
      Out("K" + o.text, o.memo)
    case TypeArg(t) => EmitTy(t, d, memo, n)
  }

  function EmitArgs(l: List<Arg>, d: Build, memo: Memo, n: nat): Out
    decreases l, 0
  {
    match l
    case Nil => Out("E", memo)
    case Cons(a, rest) =>
      var o1 := EmitArg(a, d, memo, n);
      var o2 := EmitArgs(rest, d, o1.memo, n + |o1.text|);
      Out(o1.text + o2.text, o2.memo)
  }

  /** Basic types are never worth a reference; a named type is referred to by its path. */
  function EmitTy(t: Ty, d: Build, memo: Memo, n: nat): Out
    decreases t, 1
  {
    if t.Basic? then Out([t.tag], memo)
    else if t.Named? then EmitTree(t.path, d, memo, n)
    else if NTy(t) in memo then Out(RefCode(memo[NTy(t)]), memo)
    else
      var o := EmitTyNode(t, d, memo, n);
      Out(o.text, o.memo[NTy(t) := n])
  }

  function EmitTyNode(t: Ty, d: Build, memo: Memo, n: nat): Out
    requires !t.Basic? && !t.Named?
    decreases t, 0
  {
    match t
    case Array(e, len) =>
      var o1 := EmitTy(e, d, memo, n + 1);
      var o2 := EmitVal(len, d, o1.memo, n + 1 + |o1.text|);
      Out("A" + (o1.text + o2.text), o2.memo)
    case Slice(e) =>
      var o := EmitTy(e, d, memo, n + 1);
      Out("S" + o.text, o.memo)
    case Tuple(es) =>
      var o := EmitTys(es, d, memo, n + 1);
      Out("T" + o.text, o.memo)
    case Ref(mutable, lt, e) =>
      var head := (if mutable then "Q" else "R") + MaybeCode('L', lt);
      var o := EmitTy(e, d, memo, n + |head|);
      Out(head + o.text, o.memo)
    case Ptr(mutable, e) =>
      var o := EmitTy(e, d, memo, n + 1);
      Out((if mutable then "O" else "P") + o.text, o.memo)
    case FnPtr(binder, isUnsafe, abi, ps, ret) =>
      var head := "F" + (MaybeCode('G', binder) + ((if isUnsafe then "U" else "") + AbiCode(abi)));
      var o1 := EmitTys(ps, d, memo, n + |head|);
      var o2 := EmitTy(ret, d, o1.memo, n + |head| + |o1.text|);
      Out(head + (o1.text + o2.text), o2.memo)
    case Dyn(binder, bounds, lt) =>
      var head := "D" + MaybeCode('G', binder);
      var o := EmitBounds(bounds, d, memo, n + |head|);
      Out(head + (o.text + ("L" + Text62(lt))), o.memo)
  }

  function EmitTys(l: List<Ty>, d: Build, memo: Memo, n: nat): Out
    decreases l, 0
  {
    match l
    case Nil => Out("E", memo)
    case Cons(t, rest) =>
      var o1 := EmitTy(t, d, memo, n);
      var o2 := EmitTys(rest, d, o1.memo, n + |o1.text|);
      Out(o1.text + o2.text, o2.memo)
  }

  function EmitBounds(l: List<Bound>, d: Build, memo: Memo, n: nat): Out
    decreases l, 0
  {
    match l
    case Nil => Out("E", memo)
    case Cons(t, rest) =>
      var o1 := EmitTree(t.path, d, memo, n);
      var o2 := EmitBindings(t.bindings, d, o1.memo, n + |o1.text|);
      var o3 := EmitBounds(rest, d, o2.memo, n + |o1.text| + |o2.text|);
      Out(o1.text + (o2.text + o3.text), o3.memo)
  }

  function EmitBindings(l: List<Binding>, d: Build, memo: Memo, n: nat): Out
    decreases l, 0
  {
    match l
    case Nil => Out("", memo)
    case Cons(x, rest) =>
      var head := "p" + NameCode(x.name);
      var o1 := EmitTy(x.ty, d, memo, n + |head|);
      var o2 := EmitBindings(rest, d, o1.memo, n + |head| + |o1.text|);
      Out(head + (o1.text + o2.text), o2.memo)
  }

  function EmitVal(c: Val, d: Build, memo: Memo, n: nat): Out
    decreases c, 1
  {
    match c
    case Hole => Out("p", memo)
    case Value(ty, neg, hex) =>
      if NVal(c) in memo then Out(RefCode(memo[NVal(c)]), memo)
      else
        var o := EmitTy(ty, d, memo, n);
        Out(o.text + ((if neg then "n" else "") + (hex + "_")), o.memo[NVal(c) := n])
  }

  /** The symbol of a tree in a build, without its `_R`. */
  function Mangle(t: Tree, d: Build): string {
    EmitTree(t, d, map[], 0).text
  }

  // ---- well-formed trees -------------------------------------------------

  /** The constants of the grammar are of basic types. */
  predicate WfVal(c: Val) {
    c.Value? ==>
      && c.ty.Basic? && c.ty.tag in BASIC_TYPES && c.ty.tag != 'p'
      && AllHex(c.hex)
  }

  predicate WfTree(t: Tree) {
    match t
    case Crate(_, _) => true
    case Inherent(_, home, self) => WfTree(home) && WfTy(self)
    case TraitImpl(_, home, self, tr) => WfTree(home) && WfTy(self) && WfTree(tr)
    case TraitItem(self, tr) => WfTy(self) && WfTree(tr)
    case Nested(_, parent, _, _) => WfTree(parent)
    case Generic(base, args) => WfTree(base) && WfArgs(args)
  }

  predicate WfArgs(l: List<Arg>) {
    l.Cons? ==>
      && (l.head.ConstArg? ==> WfVal(l.head.value)) && (l.head.TypeArg? ==> WfTy(l.head.ty))
      && WfArgs(l.tail)
  }

  predicate WfTy(t: Ty) {
    match t
    case Basic(tag) => tag in BASIC_TYPES
    case Array(e, len) => WfTy(e) && WfVal(len)
    case Slice(e) => WfTy(e)
    case Tuple(es) => WfTys(es)
    case Ref(_, _, e) => WfTy(e)
    case Ptr(_, e) => WfTy(e)
    case FnPtr(_, _, _, ps, ret) => WfTys(ps) && WfTy(ret)
    case Dyn(_, bounds, _) => WfBounds(bounds)
    case Named(p) => WfTree(p)
  }

  predicate WfTys(l: List<Ty>) {
    l.Cons? ==> WfTy(l.head) && WfTys(l.tail)
  }

  predicate WfBounds(l: List<Bound>) {
    l.Cons? ==> WfTree(l.head.path) && WfBindings(l.head.bindings) && WfBounds(l.tail)
  }

  predicate WfBindings(l: List<Binding>) {
    l.Cons? ==> WfTy(l.head.ty) && WfBindings(l.tail)
  }

  // ---- heights -----------------------------------------------------------

  /** Nesting levels of a tree when nothing is referred back to. */
  function Height(t: Tree): nat {
    match t
    case Crate(_, _) => 1
    case Inherent(_, home, self) => 1 + Max(Height(home), HeightTy(self))
    case TraitImpl(_, home, self, tr) => 1 + Max(Height(home), Max(HeightTy(self), Height(tr)))
    case TraitItem(self, tr) => 1 + Max(HeightTy(self), Height(tr))
    case Nested(_, parent, _, _) => 1 + Height(parent)
    case Generic(base, args) => 1 + Max(Height(base), HeightArgs(args))
  }

  function HeightArgs(l: List<Arg>): nat {
    match l
    case Nil => 0
    case Cons(a, rest) =>
      Max(match a case LifetimeArg(_) => 0 case ConstArg(c) => HeightVal(c) case TypeArg(t) => HeightTy(t),
          HeightArgs(rest))
  }

  function HeightTy(t: Ty): nat {
    match t
    case Basic(_) => 1
    case Array(e, len) => 1 + Max(HeightTy(e), HeightVal(len))
    case Slice(e) => 1 + HeightTy(e)
    case Tuple(es) => 1 + HeightTys(es)
    case Ref(_, _, e) => 1 + HeightTy(e)
    case Ptr(_, e) => 1 + HeightTy(e)
    case FnPtr(_, _, _, ps, ret) => 1 + Max(HeightTys(ps), HeightTy(ret))
    case Dyn(_, bounds, _) => 1 + HeightBounds(bounds)
    case Named(p) => 1 + Height(p)
  }

  function HeightTys(l: List<Ty>): nat {
    if l.Nil? then 0 else Max(HeightTy(l.head), HeightTys(l.tail))
  }

  function HeightBounds(l: List<Bound>): nat {
    if l.Nil? then 0 else Max(Max(Height(l.head.path), HeightBindings(l.head.bindings)), HeightBounds(l.tail))
  }

  function HeightBindings(l: List<Binding>): nat {
    if l.Nil? then 0 else Max(HeightTy(l.head.ty), HeightBindings(l.tail))
  }

  function HeightVal(c: Val): nat {
    if c.Hole? then 0 else HeightTy(c.ty)
  }
}
