/** What a v0 symbol's text still knows of its tree: the shape, with everything erased that
    does not show, and how a shape is printed. Erased are the slots and homes of impls and
    whether an impl is of a trait or an item of it; the namespace and disambiguator of items
    in lower-case namespaces; binders and the numbering of lifetimes under them; the types
    of constants. The unit type is the empty tuple; a basic type, a crate and a constant that
    read as one word are that word; the bindings of a bound join its generic arguments. */
module V0Shape {
  import opened Options
  import opened Text
  import opened V0Parser
  import opened V0Syntax

  datatype Life = Anon | Level(n: int)

  /** A path: where it starts, and its segments. */
  datatype Route = Route(head: Head, segs: List<Seg>)

  datatype Head =
    | Word(text: string)
    | Self(ty: Form, more: List<Entry>)
    | As(ty: Form, tr: Route, more: List<Entry>)

  datatype Seg =
    | Item(text: string)
    | Inner(ns: char, dis: nat, text: string)
    | Args(entries: List<Entry>)

  datatype Entry = Nothing | Lives(life: Life) | Holds(form: Form) | Binds(name: string, form: Form)

  /** A type or a constant. */
  datatype Form =
    | Bang
    | Dots
    | Minus(n: nat)
    | Letter(digits: string)
    | SliceOf(elem: Form)
    | ArrayOf(elem: Form, len: Form)
    | TupleOf(elems: List<Form>)
    | RefTo(life: Option<Life>, mutable: bool, target: Form)
    | PtrTo(mutable: bool, target: Form)
    | FnOf(isUnsafe: bool, abi: Option<string>, params: List<Form>, ret: Form)
    | DynOf(traits: List<Route>, life: Option<Life>)
    | Is(route: Route)

  // ---- lists -------------------------------------------------------------

  function Snoc<T>(l: List<T>, x: T): List<T> {
    if l.Nil? then Cons(x, Nil) else Cons(l.head, Snoc(l.tail, x))
  }

  function Append<T>(l: List<T>, m: List<T>): List<T> {
    if l.Nil? then m else Cons(l.head, Append(l.tail, m))
  }

  // ---- printing: each piece in front of what follows it ------------------

  function KindText(ns: char): string {
    if ns == 'C' then "closure" else if ns == 'S' then "shim" else [ns]
  }

  /** What stands in the braces before the number. */
  function Label(ns: char, name: string): string {
    if name == "" then KindText(ns) else KindText(ns) + ":" + name
  }

  function LifeText(l: Life): string {
    match l
    case Anon => "'_"
    case Level(n) => if 0 <= n < 26 then ['\'', 'a' + n as char] else "'_" + IntText(n)
  }

  function RouteK(r: Route, v: bool, x: string): string {
    match r.head
    case Word(w) => w + SegsK(r.segs, v, x)
    case Self(ty, more) => "<" + FormK(ty, MoreK(more, ">" + SegsK(r.segs, v, x)))
    case As(ty, tr, more) => "<" + FormK(ty, " as " + RouteK(tr, false, MoreK(more, ">" + SegsK(r.segs, v, x))))
  }

  function SegsK(l: List<Seg>, v: bool, x: string): string {
    match l
    case Nil => x
    case Cons(s, rest) => SegK(s, v, SegsK(rest, v, x))
  }

  function SegK(s: Seg, v: bool, x: string): string {
    match s
    case Item(w) => "::" + (w + x)
    case Inner(ns, dis, name) => "::{" + (Label(ns, name) + ("#" + (Dec(dis) + ("}" + x))))
    case Args(es) => (if v then "::<" else "<") + EntriesK(es, ">" + x)
  }

  function EntryK(e: Entry, x: string): string {
    match e
    case Nothing => x
    case Lives(l) => LifeText(l) + x
    case Holds(f) => FormK(f, x)
    case Binds(n, f) => n + (" = " + FormK(f, x))
  }

  function EntriesK(l: List<Entry>, x: string): string
    decreases l, 0
  {
    match l
    case Nil => x
    case Cons(e, rest) => EntryK(e, if rest.Nil? then x else ", " + EntriesK(rest, x))
  }

  function MoreK(l: List<Entry>, x: string): string
    decreases l, 1
  {
    if l.Nil? then x else ", " + EntriesK(l, x)
  }

  function FormsK(l: List<Form>, x: string): string {
    match l
    case Nil => x
    case Cons(f, rest) => FormK(f, if rest.Nil? then x else ", " + FormsK(rest, x))
  }

  function TraitsK(l: List<Route>, life: Option<Life>, x: string): string {
    match l
    case Nil => (match life case None => x case Some(a) => LifeText(a) + x)
    case Cons(r, rest) =>
      RouteK(r, false, if rest.Nil? && life.None? then x else " + " + TraitsK(rest, life, x))
  }

  function AbiK(abi: Option<string>, x: string): string {
    match abi
    case None => x
    case Some(n) => "extern \"" + (n + ("\" " + x))
  }

  function RetK(ret: Form, x: string): string
    decreases ret, 1
  {
    if ret == TupleOf(Nil) then x else " -> " + FormK(ret, x)
  }

  function FormK(f: Form, x: string): string
    decreases f, 0
  {
    match f
    case Bang => "!" + x
    case Dots => "..." + x
    case Minus(n) => "-" + (Dec(n) + x)
    case Letter(d) => "'\\u{" + (d + ("}'" + x))
    case SliceOf(e) => "[" + FormK(e, "]" + x)
    case ArrayOf(e, n) => "[" + FormK(e, "; " + FormK(n, "]" + x))
    case TupleOf(l) =>
      "(" + if l.Cons? && l.tail.Nil? then FormK(l.head, ",)" + x) else FormsK(l, ")" + x)
    case RefTo(life, m, e) =>
      var rest := (if m then "mut " else "") + FormK(e, x);
      "&" + (match life case None => rest case Some(a) => LifeText(a) + (" " + rest))
    case PtrTo(m, e) => (if m then "*mut " else "*const ") + FormK(e, x)
    case FnOf(u, abi, ps, ret) =>
      (if u then "unsafe " else "") + AbiK(abi, "fn(" + FormsK(ps, ")" + RetK(ret, x)))
    case DynOf(l, life) => "dyn " + TraitsK(l, life, x)
    case Is(r) => RouteK(r, false, x)
  }

  // ---- the shape of a tree -----------------------------------------------

  function LifeOf(idx: nat, b: nat): Life {
    if idx == 0 then Anon else Level(b - idx)
  }

  function AWord(w: string): Form {
    Is(Route(Word(w), Nil))
  }

  function Add(r: Route, s: Seg): Route {
    Route(r.head, Snoc(r.segs, s))
  }

  /** The arguments with the bindings behind them. */
  function Extend(es: List<Entry>, bs: List<Entry>): List<Entry> {
    if es.Nil? then Cons(Nothing, bs) else Append(es, bs)
  }

  function ShapeOf(t: Tree, b: nat): Route {
    match t
    case Crate(_, n) => Route(Word(NameText(n)), Nil)
    case Inherent(_, _, self) => Route(Self(ShapeTy(self, b), Nil), Nil)
    case TraitImpl(_, _, self, tr) => Route(As(ShapeTy(self, b), ShapeOf(tr, b), Nil), Nil)
    case TraitItem(self, tr) => Route(As(ShapeTy(self, b), ShapeOf(tr, b), Nil), Nil)
    case Nested(ns, parent, dis, n) =>
      Add(ShapeOf(parent, b), if IsUpper(ns) then Inner(ns, dis, NameText(n)) else Item(NameText(n)))
    case Generic(base, args) => Add(ShapeOf(base, b), Args(ShapeArgs(args, b)))
  }

  function ShapeArgs(l: List<Arg>, b: nat): List<Entry> {
    match l
    case Nil => Nil
    case Cons(a, rest) => Cons(ShapeArg(a, b), ShapeArgs(rest, b))
  }

  function ShapeArg(a: Arg, b: nat): Entry {
    match a
    case LifetimeArg(idx) => Lives(LifeOf(idx, b))
    case ConstArg(c) => Holds(ShapeVal(c))
    case TypeArg(t) => Holds(ShapeTy(t, b))
  }

  function ShapeVal(c: Val): Form {
    match c
    case Hole => AWord("_")
    case Value(ty, neg, hex) =>
      if hex == "" || !AllHex(hex) then AWord("0")
      else if ty == Basic('b') then AWord(if HexValue(hex) != 0 then "true" else "false")
      else if ty == Basic('c') then Letter(hex)
      else if neg then Minus(HexValue(hex))
      else AWord(Dec(HexValue(hex)))
  }

  function ShapeTy(t: Ty, b: nat): Form {
    match t
    case Basic(tag) =>
      if tag == 'u' then TupleOf(Nil)
      else if tag == 'z' then Bang
      else if tag == 'v' then Dots
      else AWord(if tag in BASIC_TYPES then BASIC_TYPES[tag] else "")
    case Array(e, n) => ArrayOf(ShapeTy(e, b), ShapeVal(n))
    case Slice(e) => SliceOf(ShapeTy(e, b))
    case Tuple(es) => TupleOf(ShapeTys(es, b))
    case Ref(m, lt, e) => RefTo(if lt.Yes? then Some(LifeOf(lt.n, b)) else None, m, ShapeTy(e, b))
    case Ptr(m, e) => PtrTo(m, ShapeTy(e, b))
    case FnPtr(binder, u, abi, ps, ret) =>
      var c := Binders(binder, b);
      FnOf(u, ShapeAbi(abi), ShapeTys(ps, c), ShapeTy(ret, c))
    case Dyn(binder, bounds, lt) =>
      DynOf(ShapeBounds(bounds, Binders(binder, b)), if lt != 0 then Some(LifeOf(lt, b)) else None)
    case Named(p) => Is(ShapeOf(p, b))
  }

  function ShapeAbi(a: AbiName): Option<string> {
    match a
    case RustAbi => None
    case CAbi => Some("C")
    case OtherAbi(n) => Some(NameText(n))
  }

  function ShapeTys(l: List<Ty>, b: nat): List<Form> {
    match l
    case Nil => Nil
    case Cons(t, rest) => Cons(ShapeTy(t, b), ShapeTys(rest, b))
  }

  function ShapeBounds(l: List<Bound>, b: nat): List<Route> {
    match l
    case Nil => Nil
    case Cons(t, rest) => Cons(ShapeBound(t, b), ShapeBounds(rest, b))
  }

  /** Bindings go into the angle brackets the path ends in, or into some of their own. */
  function ShapeBound(t: Bound, b: nat): Route {
    var bs := ShapeBindings(t.bindings, b);
    if bs.Nil? then ShapeOf(t.path, b)
    else
      match t.path
      case Crate(_, _) => Add(ShapeOf(t.path, b), Args(bs))
      case Nested(_, _, _, _) => Add(ShapeOf(t.path, b), Args(bs))
      case Generic(base, args) => Add(ShapeOf(base, b), Args(Extend(ShapeArgs(args, b), bs)))
      case Inherent(_, _, self) => Route(Self(ShapeTy(self, b), bs), Nil)
      case TraitImpl(_, _, self, tr) => Route(As(ShapeTy(self, b), ShapeOf(tr, b), bs), Nil)
      case TraitItem(self, tr) => Route(As(ShapeTy(self, b), ShapeOf(tr, b), bs), Nil)
  }

  function ShapeBindings(l: List<Binding>, b: nat): List<Entry> {
    match l
    case Nil => Nil
    case Cons(x, rest) => Cons(Binds(NameText(x.name), ShapeTy(x.ty, b)), ShapeBindings(rest, b))
  }

  // ---- the trees this is about -------------------------------------------

  predicate WordChar(c: char) {
    IsDigit(c) || IsLower(c) || IsUpper(c) || c == '_'
  }

  predicate Worded(n: Name) {
    forall i :: 0 <= i < |n.text| ==> WordChar(n.text[i])
  }

  /** A name that reads as a word. */
  predicate Plain(n: Name) {
    Worded(n) && n.text != ""
  }

  predicate LegibleVal(c: Val) {
    c.Value? ==> c.ty.Basic? && c.ty.tag in BASIC_TYPES && AllHex(c.hex)
  }

  /** All names are words, no crate is called `as`, and constants are of basic types. */
  predicate Legible(t: Tree) {
    match t
    case Crate(_, n) => Plain(n) && NameText(n) != "as"
    case Inherent(_, _, self) => LegibleTy(self)
    case TraitImpl(_, _, self, tr) => LegibleTy(self) && Legible(tr)
    case TraitItem(self, tr) => LegibleTy(self) && Legible(tr)
    case Nested(_, parent, _, n) => Legible(parent) && Worded(n)
    case Generic(base, args) => Legible(base) && LegibleArgs(args)
  }

  predicate LegibleArgs(l: List<Arg>) {
    l.Cons? ==>
      && (l.head.ConstArg? ==> LegibleVal(l.head.value)) && (l.head.TypeArg? ==> LegibleTy(l.head.ty))
      && LegibleArgs(l.tail)
  }

  predicate LegibleTy(t: Ty) {
    match t
    case Basic(tag) => tag in BASIC_TYPES
    case Array(e, n) => LegibleTy(e) && LegibleVal(n)
    case Slice(e) => LegibleTy(e)
    case Tuple(es) => LegibleTys(es)
    case Ref(_, _, e) => LegibleTy(e)
    case Ptr(_, e) => LegibleTy(e)
    case FnPtr(_, _, abi, ps, ret) => (abi.OtherAbi? ==> Worded(abi.name)) && LegibleTys(ps) && LegibleTy(ret)
    case Dyn(_, bounds, _) => LegibleBounds(bounds)
    case Named(p) => Legible(p)
  }

  predicate LegibleTys(l: List<Ty>) {
    l.Cons? ==> LegibleTy(l.head) && LegibleTys(l.tail)
  }

  predicate LegibleBounds(l: List<Bound>) {
    l.Cons? ==> Legible(l.head.path) && LegibleBindings(l.head.bindings) && LegibleBounds(l.tail)
  }

  predicate LegibleBindings(l: List<Binding>) {
    l.Cons? ==> Plain(l.head.name) && LegibleTy(l.head.ty) && LegibleBindings(l.tail)
  }

  // ---- a tree reads as its shape prints ----------------------------------

  lemma {:induction false} SegsSnoc(l: List<Seg>, s: Seg, v: bool, x: string)
    ensures SegsK(Snoc(l, s), v, x) == SegsK(l, v, SegK(s, v, x))
  {
    hide SegK;
    if l.Cons? {
      SegsSnoc(l.tail, s, v, x);
    }
  }

  lemma RouteAdd(r: Route, s: Seg, v: bool, x: string)
    ensures RouteK(Add(r, s), v, x) == RouteK(r, v, SegK(s, v, x))
  {
    hide SegK, SegsK, FormK, MoreK;
    SegsSnoc(r.segs, s, v, x);
  }

  lemma {:induction false} EntriesAppend(l: List<Entry>, m: List<Entry>, x: string)
    requires l.Cons? && m.Cons?
    ensures EntriesK(Append(l, m), x) == EntriesK(l, ", " + EntriesK(m, x))
  {
    hide EntryK;
    if l.tail.Cons? {
      EntriesAppend(l.tail, m, x);
    }
  }

  lemma EntriesExtend(es: List<Entry>, bs: List<Entry>, x: string)
    requires bs.Cons?
    ensures EntriesK(Extend(es, bs), x) == EntriesK(es, ", " + EntriesK(bs, x))
  {
    hide Append;
    if es.Cons? {
      EntriesAppend(es, bs, x);
    }
  }

  lemma {:induction false} TreeReads(t: Tree, b: nat, v: bool, x: string)
    requires Legible(t)
    ensures Read(t, b, v) + x == RouteK(ShapeOf(t, b), v, x)
    decreases t, 1
  {
    hide ReadTy, ShapeTy, FormK, RouteK, LegibleTy, NestedText, Join, ReadArgs;
    match t
    case Crate(_, n) => WordK(NameText(n), v, x);
    case Inherent(_, _, self) => SelfReads(self, b, Nil, v, x);
    case TraitImpl(_, _, self, tr) => AsReads(t, self, tr, b, Nil, v, x);
    case TraitItem(self, tr) => AsReads(t, self, tr, b, Nil, v, x);
    case Nested(ns, parent, dis, n) =>
      var s := if IsUpper(ns) then Inner(ns, dis, NameText(n)) else Item(NameText(n));
      NestedK(ns, Read(parent, b, v), dis, NameText(n), v, x);
      TreeReads(parent, b, v, SegK(s, v, x));
      RouteAdd(ShapeOf(parent, b), s, v, x);
    case Generic(base, args) =>
      var front := Read(base, b, v) + (if v then "::" else "") + "<" + Join(", ", ReadArgs(args, b));
      assert front + ">" + x == front + (">" + x);
      GenericReads(t, b, Nil, v, x);
  }

  lemma WordK(w: string, v: bool, x: string)
    ensures RouteK(Route(Word(w), Nil), v, x) == w + x
  {
  }

  lemma NestedK(ns: char, parent: string, dis: nat, name: string, v: bool, x: string)
    ensures NestedText(ns, parent, dis, name) + x ==
      parent + SegK(if IsUpper(ns) then Inner(ns, dis, name) else Item(name), v, x)
  {
    hide Dec;
    var l := Label(ns, name);
    assert parent + "::{" + l + "#" + Dec(dis) + "}" + x == parent + ("::{" + (l + ("#" + (Dec(dis) + ("}" + x)))));
    assert parent + "::" + name + x == parent + ("::" + (name + x));
  }

  /** The self type of an impl, and perhaps bindings. */
  lemma SelfReads(self: Ty, b: nat, more: List<Entry>, v: bool, x: string)
    requires LegibleTy(self)
    ensures "<" + ReadTy(self, b) + MoreK(more, ">" + x) == RouteK(Route(Self(ShapeTy(self, b), more), Nil), v, x)
    decreases self, 3
  {
    hide ReadTy, ShapeTy, FormK, LegibleTy, MoreK;
    TyReads(self, b, MoreK(more, ">" + x));
  }

  lemma AsReads(t: Tree, self: Ty, tr: Tree, b: nat, more: List<Entry>, v: bool, x: string)
    requires LegibleTy(self) && Legible(tr)
    requires (t.TraitImpl? || t.TraitItem?) && self == t.self && tr == t.tr
    ensures "<" + ReadTy(self, b) + " as " + Read(tr, b, false) + MoreK(more, ">" + x) ==
      RouteK(Route(As(ShapeTy(self, b), ShapeOf(tr, b), more), Nil), v, x)
    decreases t, 0
  {
    hide ReadTy, ShapeTy, FormK, LegibleTy, Legible, MoreK, Read, ShapeOf;
    var rest := MoreK(more, ">" + x);
    TreeReads(tr, b, false, rest);
    TyReads(self, b, " as " + (Read(tr, b, false) + rest));
  }

  /** A generic path, and perhaps bindings in its brackets. */
  lemma GenericReads(t: Tree, b: nat, bs: List<Entry>, v: bool, x: string)
    requires t.Generic? && Legible(t)
    ensures var es := if bs.Nil? then ShapeArgs(t.args, b) else Extend(ShapeArgs(t.args, b), bs);
      Read(t.base, b, v) + (if v then "::" else "") + "<" + Join(", ", ReadArgs(t.args, b)) + MoreK(bs, ">" + x) ==
      RouteK(Add(ShapeOf(t.base, b), Args(es)), v, x)
    decreases t, 0
  {
    hide ReadArgs, Join, ShapeArgs, Read, ShapeOf, RouteK, EntriesK, LegibleArgs, Add, Extend;
    var es := if bs.Nil? then ShapeArgs(t.args, b) else Extend(ShapeArgs(t.args, b), bs);
    var rest := MoreK(bs, ">" + x);
    ArgsRead(t.args, b, rest);
    if bs.Cons? {
      EntriesExtend(ShapeArgs(t.args, b), bs, ">" + x);
    }
    var open := if v then "::<" else "<";
    TreeReads(t.base, b, v, SegK(Args(es), v, x));
    RouteAdd(ShapeOf(t.base, b), Args(es), v, x);
    GenericConcat(Read(t.base, b, v), v, Join(", ", ReadArgs(t.args, b)), rest);
  }

  lemma GenericConcat(base: string, v: bool, args: string, rest: string)
    ensures base + (if v then "::" else "") + "<" + args + rest == base + ((if v then "::<" else "<") + (args + rest))
  {
  }

  lemma {:induction false} ArgsRead(l: List<Arg>, b: nat, x: string)
    requires LegibleArgs(l)
    ensures Join(", ", ReadArgs(l, b)) + x == EntriesK(ShapeArgs(l, b), x)
    decreases l, 1
  {
    hide ReadArg, ShapeArg, EntryK, LegibleTy, LegibleVal;
    if l.Cons? {
      var a, r := ReadArg(l.head, b), ReadArgs(l.tail, b);
      assert ([a] + r)[1..] == r;
      if l.tail.Nil? {
        ArgReads(l.head, b, x);
      } else {
        ArgsRead(l.tail, b, x);
        ArgReads(l.head, b, ", " + EntriesK(ShapeArgs(l.tail, b), x));
        assert a + ", " + Join(", ", r) + x == a + (", " + (Join(", ", r) + x));
      }
    }
  }

  lemma ArgReads(a: Arg, b: nat, x: string)
    requires (a.ConstArg? ==> LegibleVal(a.value)) && (a.TypeArg? ==> LegibleTy(a.ty))
    ensures ReadArg(a, b) + x == EntryK(ShapeArg(a, b), x)
    decreases a, 3
  {
    hide ReadTy, ReadVal, ShapeTy, ShapeVal, FormK, LegibleTy, LegibleVal;
    match a
    case LifetimeArg(idx) =>
    case ConstArg(c) => ValReads(c, b, x);
    case TypeArg(t) => TyReads(t, b, x);
  }

  lemma LifeReads(idx: nat, b: nat)
    ensures LifetimeText(idx, b) == LifeText(LifeOf(idx, b))
  {
    hide IntText;
  }

  lemma ValReads(c: Val, b: nat, x: string)
    requires LegibleVal(c)
    ensures ReadVal(c, b) + x == FormK(ShapeVal(c), x)
  {
    hide Dec, HexValue, ReadTy;
    if c.Hole? {
      WordK("_", false, x);
    } else {
      ConstTypes(c.ty, b);
      if c.hex == "" {
        WordK("0", false, x);
      } else {
        var n := HexValue(c.hex);
        WordK("true", false, x);
        WordK("false", false, x);
        WordK(Dec(n), false, x);
        assert "'\\u{" + c.hex + "}'" + x == "'\\u{" + (c.hex + ("}'" + x));
        assert "-" + Dec(n) + x == "-" + (Dec(n) + x);
      }
    }
  }

  lemma ConstTypes(t: Ty, b: nat)
    requires t.Basic? && t.tag in BASIC_TYPES
    ensures ReadTy(t, b) == "bool" <==> t.tag == 'b'
    ensures ReadTy(t, b) == "char" <==> t.tag == 'c'
  {
  }

  lemma {:induction false} TyReads(t: Ty, b: nat, x: string)
    requires LegibleTy(t)
    ensures ReadTy(t, b) + x == FormK(ShapeTy(t, b), x)
    decreases t, 2
  {
    hide ReadTy, ShapeTy, FormK, LegibleTy;
    match t
    case Basic(_) => BasicReads(t, b, x);
    case Array(_, _) => ArrayReads(t, b, x);
    case Slice(_) => PointerReads(t, b, x);
    case Tuple(_) => TupleTyReads(t, b, x);
    case Ref(_, _, _) => RefReads(t, b, x);
    case Ptr(_, _) => PointerReads(t, b, x);
    case FnPtr(_, _, _, _, _) => FnReads(t, b, x);
    case Dyn(_, _, _) => DynReads(t, b, x);
    case Named(_) => NamedReads(t, b, x);
  }

  lemma ArrayReads(t: Ty, b: nat, x: string)
    requires t.Array? && LegibleTy(t)
    ensures ReadTy(t, b) + x == FormK(ShapeTy(t, b), x)
    decreases t, 1
  {
    hide ReadVal, ShapeVal, LegibleVal;
    var e, n := ReadTy(t.elem, b), ReadVal(t.len, b);
    ValReads(t.len, b, "]" + x);
    TyReads(t.elem, b, "; " + (n + ("]" + x)));
    assert "[" + e + "; " + n + "]" + x == "[" + (e + ("; " + (n + ("]" + x))));
  }

  lemma PointerReads(t: Ty, b: nat, x: string)
    requires (t.Slice? || t.Ptr?) && LegibleTy(t)
    ensures ReadTy(t, b) + x == FormK(ShapeTy(t, b), x)
    decreases t, 1
  {
    if t.Slice? {
      TyReads(t.elem, b, "]" + x);
      assert "[" + ReadTy(t.elem, b) + "]" + x == "[" + (ReadTy(t.elem, b) + ("]" + x));
    } else {
      TyReads(t.target, b, x);
      var star := if t.mutable then "*mut " else "*const ";
      assert star + ReadTy(t.target, b) + x == star + (ReadTy(t.target, b) + x);
    }
  }

  lemma RefReads(t: Ty, b: nat, x: string)
    requires t.Ref? && LegibleTy(t)
    ensures ReadTy(t, b) + x == FormK(ShapeTy(t, b), x)
    decreases t, 1
  {
    hide LifetimeText, LifeText, LifeOf;
    TyReads(t.target, b, x);
    var m, e := if t.mutable then "mut " else "", ReadTy(t.target, b);
    if t.lifetime.Yes? {
      LifeReads(t.lifetime.n, b);
      RefConcat(LifetimeText(t.lifetime.n, b) + " ", m, e, x);
      LifeConcat(LifetimeText(t.lifetime.n, b), m + (e + x));
    } else {
      RefConcat("", m, e, x);
    }
  }

  lemma RefConcat(l: string, m: string, e: string, x: string)
    ensures "&" + l + m + e + x == "&" + (l + (m + (e + x)))
  {
  }

  lemma LifeConcat(l: string, x: string)
    ensures l + " " + x == l + (" " + x)
  {
  }

  lemma TupleTyReads(t: Ty, b: nat, x: string)
    requires t.Tuple? && LegibleTy(t)
    ensures ReadTy(t, b) + x == FormK(ShapeTy(t, b), x)
    decreases t, 1
  {
    hide ReadTys, ShapeTys, LegibleTys, TupleText, FormK;
    TupleReads(t.elems, b, x);
  }

  lemma NamedReads(t: Ty, b: nat, x: string)
    requires t.Named? && LegibleTy(t)
    ensures ReadTy(t, b) + x == FormK(ShapeTy(t, b), x)
    decreases t, 1
  {
    hide Read, ShapeOf, Legible, RouteK;
    TreeReads(t.path, b, false, x);
  }

  lemma BasicReads(t: Ty, b: nat, x: string)
    requires t.Basic? && LegibleTy(t)
    ensures ReadTy(t, b) + x == FormK(ShapeTy(t, b), x)
  {
    WordK(BASIC_TYPES[t.tag], false, x);
    assert "(" + (")" + x) == "()" + x;
  }

  lemma {:induction false} TysRead(l: List<Ty>, b: nat, x: string)
    requires LegibleTys(l)
    ensures Join(", ", ReadTys(l, b)) + x == FormsK(ShapeTys(l, b), x)
    ensures |ReadTys(l, b)| == 1 <==> l.Cons? && l.tail.Nil?
    decreases l, 1
  {
    hide ReadTy, ShapeTy, FormK, LegibleTy;
    if l.Cons? {
      var a, r := ReadTy(l.head, b), ReadTys(l.tail, b);
      assert ([a] + r)[1..] == r;
      if l.tail.Nil? {
        TyReads(l.head, b, x);
      } else {
        TysRead(l.tail, b, x);
        TyReads(l.head, b, ", " + FormsK(ShapeTys(l.tail, b), x));
        assert a + ", " + Join(", ", r) + x == a + (", " + (Join(", ", r) + x));
      }
    }
  }

  lemma TupleReads(l: List<Ty>, b: nat, x: string)
    requires LegibleTys(l)
    ensures TupleText(ReadTys(l, b)) + x == FormK(TupleOf(ShapeTys(l, b)), x)
    decreases l, 2
  {
    hide ReadTy, ShapeTy, LegibleTy, FormsK;
    if l.Cons? && l.tail.Nil? {
      TyReads(l.head, b, ",)" + x);
      assert ReadTys(l, b) == [ReadTy(l.head, b)];
      assert "(" + ReadTy(l.head, b) + ",)" + x == "(" + (ReadTy(l.head, b) + (",)" + x));
    } else {
      hide FormK;
      TysRead(l, b, ")" + x);
      TupleMany(l, b, x);
      var j := Join(", ", ReadTys(l, b));
      assert "(" + j + ")" + x == "(" + (j + (")" + x));
    }
  }

  lemma TupleMany(l: List<Ty>, b: nat, x: string)
    requires !(l.Cons? && l.tail.Nil?)
    ensures FormK(TupleOf(ShapeTys(l, b)), x) == "(" + FormsK(ShapeTys(l, b), ")" + x)
  {
    hide ShapeTy;
  }

  lemma AbiReads(a: AbiName, x: string)
    ensures AbiText(a) + x == AbiK(ShapeAbi(a), x)
  {
    if !a.RustAbi? {
      var n := ShapeAbi(a).value;
      assert "extern \"" + n + "\" " + x == "extern \"" + (n + ("\" " + x));
    }
  }

  lemma FnReads(t: Ty, b: nat, x: string)
    requires t.FnPtr? && LegibleTy(t)
    ensures ReadTy(t, b) + x == FormK(ShapeTy(t, b), x)
    decreases t, 1
  {
    hide ReadTys, ShapeTys, LegibleTys, Join, FormsK, AbiK, AbiText;
    var c := Binders(t.binder, b);
    var ps, ret := Join(", ", ReadTys(t.params, c)), ReadTy(t.ret, c);
    var arrow := if ret == "()" then "" else " -> " + ret;
    RetReads(t.ret, c, x);
    TysRead(t.params, c, ")" + (arrow + x));
    AbiReads(t.abi, "fn(" + (ps + (")" + (arrow + x))));
    FnConcat(t.isUnsafe, AbiText(t.abi), ps, arrow, x);
  }

  lemma FnConcat(u: bool, abi: string, ps: string, arrow: string, x: string)
    ensures (if u then "unsafe " else "") + abi + "fn(" + ps + ")" + arrow + x ==
      (if u then "unsafe " else "") + (abi + ("fn(" + (ps + (")" + (arrow + x)))))
  {
  }

  /** A function that returns the unit type shows no arrow. */
  lemma RetReads(t: Ty, b: nat, x: string)
    requires LegibleTy(t)
    ensures (if ReadTy(t, b) == "()" then "" else " -> " + ReadTy(t, b)) + x == RetK(ShapeTy(t, b), x)
    decreases t, 3
  {
    hide ReadTy, ShapeTy, FormK, LegibleTy;
    UnitReads(t, b);
    TyReads(t, b, x);
  }

  lemma UnitReads(t: Ty, b: nat)
    requires LegibleTy(t)
    ensures ReadTy(t, b) == "()" <==> ShapeTy(t, b) == TupleOf(Nil)
    decreases t, 2
  {
    hide Read, ReadVal, ReadTys, ReadBounds, ShapeOf, ShapeVal, ShapeTys, ShapeBounds, Legible, LegibleTys, LegibleBounds, Join, LifetimeText;
    match t
    case Basic(tag) =>
    case Tuple(es) => UnitTuple(es, b);
    case Named(p) => NotUnit(p, b);
    case FnPtr(_, _, _, _, _) => FnNotUnit(t, b);
    case _ => assert ReadTy(t, b)[0] != "()"[0];
  }

  lemma FnNotUnit(t: Ty, b: nat)
    requires t.FnPtr?
    ensures |ReadTy(t, b)| > 2
  {
    hide ReadTys, Join, AbiText;
  }

  lemma UnitTuple(l: List<Ty>, b: nat)
    requires LegibleTys(l)
    ensures TupleText(ReadTys(l, b)) == "()" <==> ShapeTys(l, b) == Nil
    decreases l, 2
  {
    hide ReadTy, ShapeTy, LegibleTy;
    if l.Cons? {
      Nonempty(l.head, b);
      var a, r := ReadTy(l.head, b), ReadTys(l.tail, b);
      assert ([a] + r)[1..] == r;
      assert |TupleText([a] + r)| > 2;
    }
  }

  lemma NotUnit(t: Tree, b: nat)
    requires Legible(t)
    ensures Read(t, b, false) != "" && Read(t, b, false)[0] != '('
    decreases t, 1
  {
    hide ReadTy, ReadArgs, LegibleTy, LegibleArgs, Dec, Join;
    match t
    case Nested(_, parent, _, _) => NotUnit(parent, b);
    case Generic(base, _) => NotUnit(base, b);
    case Crate(_, n) => assert NameText(n) != "" && NameText(n)[0] != '(';
    case _ =>
  }

  lemma Nonempty(t: Ty, b: nat)
    requires LegibleTy(t)
    ensures ReadTy(t, b) != ""
  {
    hide Read, ReadVal, ReadTys, ReadBounds, Legible, LegibleTys, LegibleBounds, Join, LifetimeText, AbiText;
    if t.Named? {
      NotUnit(t.path, b);
    }
  }

  lemma DynReads(t: Ty, b: nat, x: string)
    requires t.Dyn? && LegibleTy(t)
    ensures ReadTy(t, b) + x == FormK(ShapeTy(t, b), x)
    decreases t, 1
  {
    hide ReadBounds, ShapeBounds, LegibleBounds, Join, LifetimeText, LifeText, TraitsK;
    var c := Binders(t.binder, b);
    BoundsRead(t.bounds, c, t.outlives, b, x);
  }

  /** The texts of the traits, and of the lifetime if there is one. */
  function DynTexts(l: List<Bound>, c: nat, lt: nat, b: nat): seq<string> {
    if lt != 0 then ReadBounds(l, c) + [LifetimeText(lt, b)] else ReadBounds(l, c)
  }

  lemma DynTextsCons(l: List<Bound>, c: nat, lt: nat, b: nat)
    requires l.Cons?
    ensures DynTexts(l, c, lt, b) == [ReadBound(l.head, c)] + DynTexts(l.tail, c, lt, b)
    ensures DynTexts(l.tail, c, lt, b) == [] <==> l.tail.Nil? && lt == 0
  {
    hide ReadBound, LifetimeText;
  }

  lemma JoinCons(sep: string, a: string, rest: seq<string>, x: string)
    ensures Join(sep, [a] + rest) + x == a + if rest == [] then x else sep + (Join(sep, rest) + x)
  {
    assert ([a] + rest)[1..] == rest;
  }

  lemma {:induction false} BoundsRead(l: List<Bound>, c: nat, lt: nat, b: nat, x: string)
    requires LegibleBounds(l)
    ensures Join(" + ", DynTexts(l, c, lt, b)) + x ==
      TraitsK(ShapeBounds(l, c), if lt != 0 then Some(LifeOf(lt, b)) else None, x)
    decreases l, 1
  {
    hide ReadBound, ShapeBound, RouteK, LifetimeText, LifeText, Legible, LegibleBindings, Join, DynTexts, LifeOf;
    if l.Nil? {
      NoBounds(c, lt, b, x);
    } else {
      var rest := DynTexts(l.tail, c, lt, b);
      DynTextsCons(l, c, lt, b);
      JoinCons(" + ", ReadBound(l.head, c), rest, x);
      BoundsRead(l.tail, c, lt, b, x);
      BoundReads(l.head, c, if rest == [] then x else " + " + (Join(" + ", rest) + x));
    }
  }

  lemma NoBounds(c: nat, lt: nat, b: nat, x: string)
    ensures Join(" + ", DynTexts(Nil, c, lt, b)) + x == TraitsK(Nil, if lt != 0 then Some(LifeOf(lt, b)) else None, x)
  {
    hide LifetimeText, LifeText;
    if lt != 0 {
      LifeReads(lt, b);
      assert DynTexts(Nil, c, lt, b) == [LifetimeText(lt, b)];
    }
  }

  lemma {:induction false} BindingsRead(l: List<Binding>, b: nat, x: string)
    requires LegibleBindings(l)
    ensures Join(", ", ReadBindings(l, b)) + x == EntriesK(ShapeBindings(l, b), x)
    ensures ReadBindings(l, b) == [] <==> l.Nil?
    ensures ShapeBindings(l, b).Nil? <==> l.Nil?
    decreases l, 1
  {
    hide ReadTy, ShapeTy, FormK, LegibleTy, NameText;
    if l.Cons? {
      var n, ty := NameText(l.head.name), ReadTy(l.head.ty, b);
      var a, r := n + " = " + ty, ReadBindings(l.tail, b);
      assert ([a] + r)[1..] == r;
      BindingsRead(l.tail, b, x);
      var rest := if l.tail.Nil? then x else ", " + (Join(", ", r) + x);
      TyReads(l.head.ty, b, rest);
      assert n + " = " + ty + rest == n + (" = " + (ty + rest));
      assert l.tail.Cons? ==> a + ", " + Join(", ", r) + x == a + (", " + (Join(", ", r) + x));
    }
  }

  /** The text of a path ends in an angle bracket exactly for impls and generics. */
  lemma AngleShows(t: Tree, b: nat)
    requires Legible(t)
    ensures var s := Read(t, b, false);
      (s != "" && s[|s| - 1] == '>') <==> (t.Generic? || t.Inherent? || t.TraitImpl? || t.TraitItem?)
  {
    hide ReadTy, ReadArgs, LegibleTy, LegibleArgs, Dec, Join;
    match t
    case Nested(ns, parent, dis, n) =>
      assert forall i :: 0 <= i < |NameText(n)| ==> NameText(n)[i] != '>';
    case Crate(_, n) =>
      assert forall i :: 0 <= i < |NameText(n)| ==> NameText(n)[i] != '>';
    case _ =>
  }

  lemma BoundReads(t: Bound, b: nat, x: string)
    requires Legible(t.path) && LegibleBindings(t.bindings)
    ensures ReadBound(t, b) + x == RouteK(ShapeBound(t, b), false, x)
    decreases t, 1
  {
    hide Read, ShapeOf, RouteK, Legible, ReadBindings, ShapeBindings, LegibleBindings, Join;
    BindingsRead(t.bindings, b, ">" + x);
    if t.bindings.Nil? {
      TreeReads(t.path, b, false, x);
    } else {
      AngleShows(t.path, b);
      if t.path.Crate? || t.path.Nested? {
        var bs := ShapeBindings(t.bindings, b);
        TreeReads(t.path, b, false, SegK(Args(bs), false, x));
        RouteAdd(ShapeOf(t.path, b), Args(bs), false, x);
        BracketConcat(Read(t.path, b, false), Join(", ", ReadBindings(t.bindings, b)), x);
      } else {
        AngledBoundReads(t, b, x);
      }
    }
  }

  lemma BracketConcat(p: string, j: string, x: string)
    ensures p + "<" + j + ">" + x == p + ("<" + (j + (">" + x)))
  {
  }

  lemma AngledBoundReads(t: Bound, b: nat, x: string)
    requires Legible(t.path) && LegibleBindings(t.bindings) && t.bindings.Cons?
    requires !t.path.Crate? && !t.path.Nested?
    requires var s := Read(t.path, b, false); s != "" && s[|s| - 1] == '>'
    ensures ReadBound(t, b) + x == RouteK(ShapeBound(t, b), false, x)
    decreases t, 0
  {
    hide RouteK, ReadBindings, ShapeBindings, LegibleBindings, Join, ReadTy, ShapeTy, ReadArgs, ShapeArgs, LegibleTy, LegibleArgs, EntriesK, Extend, Add;
    var s, j, bs := Read(t.path, b, false), Join(", ", ReadBindings(t.bindings, b)), ShapeBindings(t.bindings, b);
    BindingsRead(t.bindings, b, ">" + x);
    assert ReadBound(t, b) + x == s[..|s| - 1] + MoreK(bs, ">" + x) by {
      assert s[..|s| - 1] + ", " + j + ">" + x == s[..|s| - 1] + (", " + (j + (">" + x)));
    }
    match t.path
    case Inherent(_, _, self) =>
      assert s[..|s| - 1] == "<" + ReadTy(self, b);
      SelfReads(self, b, bs, false, x);
    case TraitImpl(_, _, self, tr) =>
      assert s[..|s| - 1] == "<" + ReadTy(self, b) + " as " + Read(tr, b, false);
      AsReads(t.path, self, tr, b, bs, false, x);
    case TraitItem(self, tr) =>
      assert s[..|s| - 1] == "<" + ReadTy(self, b) + " as " + Read(tr, b, false);
      AsReads(t.path, self, tr, b, bs, false, x);
    case Generic(base, args) =>
      assert s[..|s| - 1] == Read(base, b, false) + "" + "<" + Join(", ", ReadArgs(args, b));
      GenericReads(t.path, b, bs, false, x);
  }
}
