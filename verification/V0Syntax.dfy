/** What a v0 symbol says, as a tree of the RFC 2603 grammar without back references,
    and how such a tree reads. The disambiguators that a build chooses (of crates and of
    impls) are not in the tree: it holds a slot number in their place. */
module V0Syntax {
  import opened Text
  import opened V0Parser

  datatype List<+T> = Nil | Cons(head: T, tail: List<T>)

  datatype Maybe = No | Yes(n: nat)

  datatype Name = Name(puny: bool, text: string)

  datatype Tree =
    | Crate(slot: nat, name: Name)
    | Inherent(slot: nat, home: Tree, self: Ty)
    | TraitImpl(slot: nat, home: Tree, self: Ty, tr: Tree)
    | TraitItem(self: Ty, tr: Tree)
    | Nested(ns: char, parent: Tree, dis: nat, name: Name)
    | Generic(base: Tree, args: List<Arg>)

  datatype Arg = LifetimeArg(idx: nat) | ConstArg(value: Val) | TypeArg(ty: Ty)

  datatype Ty =
    | Basic(tag: char)
    | Array(elem: Ty, len: Val)
    | Slice(elem: Ty)
    | Tuple(elems: List<Ty>)
    | Ref(mutable: bool, lifetime: Maybe, target: Ty)
    | Ptr(mutable: bool, target: Ty)
    | FnPtr(binder: Maybe, isUnsafe: bool, abi: AbiName, params: List<Ty>, ret: Ty)
    | Dyn(binder: Maybe, bounds: List<Bound>, outlives: nat)
    | Named(path: Tree)

  datatype AbiName = RustAbi | CAbi | OtherAbi(name: Name)

  datatype Bound = Bound(path: Tree, bindings: List<Binding>)

  datatype Binding = Binding(name: Name, ty: Ty)

  /** `hex` is the value in hexadecimal digits. */
  datatype Val = Hole | Value(ty: Ty, neg: bool, hex: string)

  // ---- how a tree reads --------------------------------------------------

  function NameText(n: Name): string {
    if n.puny then "punycode$" + n.text else n.text
  }

  function Binders(binder: Maybe, b: nat): nat {
    if binder.Yes? then b + binder.n else b
  }

  function AbiText(a: AbiName): string {
    match a
    case RustAbi => ""
    case CAbi => "extern \"C\" "
    case OtherAbi(n) => "extern \"" + NameText(n) + "\" "
  }

  /** The reading of a path, with b lifetimes bound, in value or in type position. */
  function Read(t: Tree, b: nat, v: bool): string
  {
    match t
    case Crate(_, name) => NameText(name)
    case Inherent(_, _, self) => "<" + ReadTy(self, b) + ">"
    case TraitImpl(_, _, self, tr) => "<" + ReadTy(self, b) + " as " + Read(tr, b, false) + ">"
    case TraitItem(self, tr) => "<" + ReadTy(self, b) + " as " + Read(tr, b, false) + ">"
    case Nested(ns, parent, dis, name) => NestedText(ns, Read(parent, b, v), dis, NameText(name))
    case Generic(base, args) => GenericText(Read(base, b, v), v, ReadArgs(args, b))
  }

  function ReadArg(a: Arg, b: nat): string
  {
    match a
    case LifetimeArg(idx) => LifetimeText(idx, b)
    case ConstArg(c) => ReadVal(c, b)
    case TypeArg(t) => ReadTy(t, b)
  }

  function ReadArgs(l: List<Arg>, b: nat): seq<string>
  {
    match l
    case Nil => []
    case Cons(a, rest) => [ReadArg(a, b)] + ReadArgs(rest, b)
  }

  function ReadTy(t: Ty, b: nat): string
  {
    match t
    case Basic(tag) => if tag in BASIC_TYPES then BASIC_TYPES[tag] else ""
    case Array(e, n) => "[" + ReadTy(e, b) + "; " + ReadVal(n, b) + "]"
    case Slice(e) => "[" + ReadTy(e, b) + "]"
    case Tuple(es) => TupleText(ReadTys(es, b))
    case Ref(m, lt, e) =>
      "&" + (if lt.Yes? then LifetimeText(lt.n, b) + " " else "") + (if m then "mut " else "") + ReadTy(e, b)
    case Ptr(m, e) => (if m then "*mut " else "*const ") + ReadTy(e, b)
    case FnPtr(binder, u, abi, ps, ret) =>
      FnText(u, AbiText(abi), ReadTys(ps, Binders(binder, b)), ReadTy(ret, Binders(binder, b)))
    case Dyn(binder, bounds, lt) =>
      var traits := ReadBounds(bounds, Binders(binder, b));
      "dyn " + Join(" + ", if lt != 0 then traits + [LifetimeText(lt, b)] else traits)
    case Named(p) => Read(p, b, false)
  }

  function ReadTys(l: List<Ty>, b: nat): seq<string>
  {
    match l
    case Nil => []
    case Cons(t, rest) => [ReadTy(t, b)] + ReadTys(rest, b)
  }

  function ReadBound(t: Bound, b: nat): string
  {
    TraitText(Read(t.path, b, false), ReadBindings(t.bindings, b))
  }

  function ReadBounds(l: List<Bound>, b: nat): seq<string>
  {
    match l
    case Nil => []
    case Cons(t, rest) => [ReadBound(t, b)] + ReadBounds(rest, b)
  }

  function ReadBindings(l: List<Binding>, b: nat): seq<string>
  {
    match l
    case Nil => []
    case Cons(x, rest) => [NameText(x.name) + " = " + ReadTy(x.ty, b)] + ReadBindings(rest, b)
  }

  function ReadVal(c: Val, b: nat): string
  {
    match c
    case Hole => "_"
    case Value(ty, neg, hex) =>
      if AllHex(hex) then ConstText(ReadTy(ty, b), neg, hex) else ""
  }
}
