/** When two symbols share an identity. A printed shape can be read from left to right in one
    way only, so two trees have one text exactly when they have one shape: what the text
    drops is what `V0Shape` erases, and nothing else. */
module V0Precision {
  import opened Options
  import opened Text
  import opened V0Parser
  import opened V0Syntax
  import opened V0Mangler
  import opened V0Match
  import opened V0Levels
  import opened V0RoundTrip
  import opened V0Shape

  // ---- words -------------------------------------------------------------

  /** Characters of a name as it reads; none of them has a meaning of its own. */
  predicate NameChar(c: char) {
    WordChar(c) || c == '$'
  }

  predicate NameLike(s: string) {
    forall i :: 0 <= i < |s| ==> NameChar(s[i])
  }

  predicate StartsWith(s: string, p: string) {
    |p| <= |s| && s[..|p|] == p
  }

  /** The word at the front. */
  function WordLen(s: string): (n: nat)
    ensures n <= |s| && NameLike(s[..n]) && (n < |s| ==> !NameChar(s[n]))
  {
    if s == "" || !NameChar(s[0]) then 0
    else
      var n := WordLen(s[1..]);
      assert s[..n + 1] == [s[0]] + s[1..][..n];
      n + 1
  }

  function FirstWord(s: string): string {
    s[..WordLen(s)]
  }

  function AfterWord(s: string): string {
    s[WordLen(s)..]
  }

  /** No name goes on here. */
  predicate WordEnds(x: string) {
    x == "" || !NameChar(x[0])
  }

  lemma WordIs(w: string, x: string)
    requires NameLike(w) && WordEnds(x)
    ensures FirstWord(w + x) == w && AfterWord(w + x) == x
  {
    hide NameChar;
    var s, n := w + x, WordLen(w + x);
    assert forall i :: 0 <= i < |w| ==> s[i] == w[i];
    assert forall i :: 0 <= i < n ==> s[i] == s[..n][i];
    assert |w| < |s| ==> !NameChar(s[|w|]);
    assert s[..|w|] == w && s[|w|..] == x;
  }

  lemma WordSplit(w: string, x: string, u: string, y: string)
    requires NameLike(w) && NameLike(u) && WordEnds(x) && WordEnds(y) && w + x == u + y
    ensures w == u && x == y
  {
    hide NameLike, WordEnds, FirstWord, AfterWord;
    WordIs(w, x);
    WordIs(u, y);
  }

  lemma Cancel(p: string, x: string, y: string)
    requires p + x == p + y
    ensures x == y
  {
    assert (p + x)[|p|..] == x && (p + y)[|p|..] == y;
  }

  lemma FirstSplit(a: string, c: char, x: string, b: string, y: string)
    requires c !in a && c !in b && a + ([c] + x) == b + ([c] + y)
    ensures a == b && x == y
  {
    var s := a + ([c] + x);
    assert forall i :: 0 <= i < |a| ==> s[i] != c;
    assert forall i :: 0 <= i < |b| ==> s[i] != c;
    assert s[|a|] == c && s[|b|] == c;
    assert |a| == |b|;
    assert s[..|a|] == a && s[..|b|] == b && s[|a| + 1..] == x && s[|b| + 1..] == y;
  }

  // ---- what may follow ---------------------------------------------------

  /** What can stand behind a type. */
  predicate After(x: string) {
    x == "" || x[0] == ',' || x[0] == '>' || x[0] == ')' || x[0] == ']' || x[0] == ';' || StartsWith(x, " as ")
  }

  /** Behind a trait there may also come another. */
  predicate AfterRoute(x: string) {
    After(x) || StartsWith(x, " + ")
  }

  // ---- shapes that can be read back --------------------------------------

  predicate GoodWord(w: string) {
    NameLike(w) && w != ""
  }

  predicate GoodRoute(r: Route) {
    GoodHead(r.head) && GoodSegs(r.segs)
  }

  predicate GoodHead(h: Head) {
    match h
    case Word(w) => GoodWord(w) && w != "as"
    case Self(ty, more) => GoodForm(ty) && GoodEntries(more)
    case As(ty, tr, more) => GoodForm(ty) && GoodRoute(tr) && GoodEntries(more)
  }

  predicate GoodSegs(l: List<Seg>) {
    l.Cons? ==> GoodSeg(l.head) && GoodSegs(l.tail)
  }

  predicate GoodSeg(s: Seg) {
    match s
    case Item(w) => NameLike(w)
    case Inner(ns, _, n) => IsUpper(ns) && NameLike(n)
    case Args(es) => GoodEntries(es)
  }

  /** Nothing stands only before something. */
  predicate GoodEntries(l: List<Entry>) {
    l.Cons? ==> GoodEntry(l.head) && GoodEntries(l.tail) && (l.head.Nothing? ==> l.tail.Cons?)
  }

  predicate GoodEntry(e: Entry) {
    match e
    case Nothing => true
    case Lives(_) => true
    case Holds(f) => GoodForm(f)
    case Binds(n, f) => GoodWord(n) && GoodForm(f)
  }

  predicate GoodForms(l: List<Form>) {
    l.Cons? ==> GoodForm(l.head) && GoodForms(l.tail)
  }

  predicate GoodRoutes(l: List<Route>) {
    l.Cons? ==> GoodRoute(l.head) && GoodRoutes(l.tail)
  }

  predicate GoodForm(f: Form) {
    match f
    case Bang => true
    case Dots => true
    case Minus(_) => true
    case Letter(d) => NameLike(d)
    case SliceOf(e) => GoodForm(e)
    case ArrayOf(e, n) => GoodForm(e) && GoodForm(n)
    case TupleOf(l) => GoodForms(l)
    case RefTo(_, _, e) => GoodForm(e)
    case PtrTo(_, e) => GoodForm(e)
    case FnOf(_, abi, ps, ret) => (abi.Some? ==> NameLike(abi.value)) && GoodForms(ps) && GoodForm(ret)
    case DynOf(l, _) => GoodRoutes(l)
    case Is(r) => GoodRoute(r)
  }

  // ---- legible trees have such shapes ------------------------------------

  lemma NameReads(n: Name)
    requires Worded(n)
    ensures NameLike(NameText(n)) && (n.text != "" ==> NameText(n) != "")
  {
    assert NameLike("punycode$");
  }

  lemma {:induction false} SnocGood(l: List<Seg>, s: Seg)
    requires GoodSegs(l) && GoodSeg(s)
    ensures GoodSegs(Snoc(l, s))
  {
    hide GoodSeg;
    if l.Cons? {
      SnocGood(l.tail, s);
    }
  }

  lemma {:induction false} AppendGood(l: List<Entry>, m: List<Entry>)
    requires GoodEntries(l) && GoodEntries(m)
    ensures GoodEntries(Append(l, m)) && (l.Cons? ==> Append(l, m).Cons?)
  {
    hide GoodEntry;
    if l.Cons? {
      AppendGood(l.tail, m);
    }
  }

  lemma {:induction false} TreeGood(t: Tree, b: nat)
    requires Legible(t)
    ensures GoodRoute(ShapeOf(t, b))
    decreases t, 1
  {
    hide NameLike, Worded, LegibleTy, LegibleArgs, GoodForm, GoodEntries, ShapeTy, ShapeArgs, NameText;
    match t
    case Crate(_, n) => NameReads(n);
    case Inherent(_, _, self) =>
      TyGood(self, b);
      NoEntries();
    case TraitImpl(_, _, self, tr) =>
      TyGood(self, b);
      TreeGood(tr, b);
      NoEntries();
    case TraitItem(self, tr) =>
      TyGood(self, b);
      TreeGood(tr, b);
      NoEntries();
    case Nested(ns, parent, dis, n) =>
      TreeGood(parent, b);
      NameReads(n);
      SnocGood(ShapeOf(parent, b).segs, if IsUpper(ns) then Inner(ns, dis, NameText(n)) else Item(NameText(n)));
    case Generic(base, args) =>
      TreeGood(base, b);
      ArgsGood(args, b);
      SnocGood(ShapeOf(base, b).segs, Args(ShapeArgs(args, b)));
  }

  lemma NoEntries()
    ensures GoodEntries(Nil)
  {
  }

  lemma {:induction false} ArgsGood(l: List<Arg>, b: nat)
    requires LegibleArgs(l)
    ensures GoodEntries(ShapeArgs(l, b))
    decreases l, 1
  {
    hide LegibleTy, LegibleVal, GoodForm, ShapeTy, ShapeVal;
    if l.Cons? {
      ArgsGood(l.tail, b);
      match l.head {
        case LifetimeArg(_) =>
        case ConstArg(c) => ValGood(c);
        case TypeArg(t) => TyGood(t, b);
      }
    }
  }

  lemma WordGood(w: string)
    requires GoodWord(w) && w != "as"
    ensures GoodForm(AWord(w))
  {
    hide NameLike;
    var r := Route(Word(w), Nil);
    assert GoodHead(r.head) && GoodSegs(r.segs);
    assert GoodRoute(r);
  }

  lemma ValGood(c: Val)
    requires LegibleVal(c)
    ensures GoodForm(ShapeVal(c))
  {
    hide Dec, HexValue;
    WordGood("_");
    WordGood("0");
    WordGood("true");
    WordGood("false");
    if c.Value? && AllHex(c.hex) {
      WordGood(Dec(HexValue(c.hex)));
    }
  }

  lemma BasicGood(tag: char)
    requires tag in BASIC_TYPES && tag != 'u' && tag != 'z' && tag != 'v'
    ensures GoodWord(BASIC_TYPES[tag]) && BASIC_TYPES[tag] != "as"
  {
  }

  lemma {:induction false} TyGood(t: Ty, b: nat)
    requires LegibleTy(t)
    ensures GoodForm(ShapeTy(t, b))
    decreases t, 2
  {
    hide NameLike, Worded, LegibleTys, LegibleBounds, LegibleVal, Legible, ShapeTys, ShapeBounds, ShapeVal, ShapeOf, GoodForms, GoodRoutes, GoodRoute, NameText;
    match t
    case Basic(tag) => BasicTyGood(tag, b);
    case Array(e, n) =>
      TyGood(e, b);
      ValGood(n);
    case Slice(e) => TyGood(e, b);
    case Tuple(es) => TysGood(es, b);
    case Ref(_, _, e) => TyGood(e, b);
    case Ptr(_, e) => TyGood(e, b);
    case FnPtr(binder, _, abi, ps, ret) =>
      TysGood(ps, Binders(binder, b));
      TyGood(ret, Binders(binder, b));
      AbiGood(abi);
    case Dyn(binder, bounds, _) => BoundsGood(bounds, Binders(binder, b));
    case Named(p) => TreeGood(p, b);
  }

  lemma BasicTyGood(tag: char, b: nat)
    requires tag in BASIC_TYPES
    ensures GoodForm(ShapeTy(Basic(tag), b))
  {
    hide NameLike;
    if tag != 'u' && tag != 'z' && tag != 'v' {
      BasicGood(tag);
      WordGood(BASIC_TYPES[tag]);
    }
  }

  lemma AbiGood(abi: AbiName)
    requires abi.OtherAbi? ==> Worded(abi.name)
    ensures ShapeAbi(abi).Some? ==> NameLike(ShapeAbi(abi).value)
  {
    hide Worded;
    if abi.OtherAbi? {
      NameReads(abi.name);
    }
    assert NameLike("C");
  }

  lemma {:induction false} TysGood(l: List<Ty>, b: nat)
    requires LegibleTys(l)
    ensures GoodForms(ShapeTys(l, b))
    decreases l, 1
  {
    hide LegibleTy, GoodForm, ShapeTy;
    if l.Cons? {
      TyGood(l.head, b);
      TysGood(l.tail, b);
    }
  }

  lemma {:induction false} BoundsGood(l: List<Bound>, b: nat)
    requires LegibleBounds(l)
    ensures GoodRoutes(ShapeBounds(l, b))
    decreases l, 1
  {
    hide Legible, LegibleBindings, GoodRoute, ShapeBound;
    if l.Cons? {
      BoundGood(l.head, b);
      BoundsGood(l.tail, b);
    }
  }

  lemma BoundGood(t: Bound, b: nat)
    requires Legible(t.path) && LegibleBindings(t.bindings)
    ensures GoodRoute(ShapeBound(t, b))
    decreases t, 1
  {
    hide LegibleTy, LegibleArgs, GoodForm, GoodEntries, ShapeTy, ShapeArgs, ShapeBindings, LegibleBindings, NameLike, Worded, NameText;
    var bs := ShapeBindings(t.bindings, b);
    BindingsGood(t.bindings, b);
    TreeGood(t.path, b);
    if bs.Cons? {
      match t.path {
        case Crate(_, _) => SnocGood(ShapeOf(t.path, b).segs, Args(bs));
        case Nested(_, _, _, _) => SnocGood(ShapeOf(t.path, b).segs, Args(bs));
        case Generic(base, args) =>
          TreeGood(base, b);
          ArgsGood(args, b);
          ExtendGood(ShapeArgs(args, b), bs);
          SnocGood(ShapeOf(base, b).segs, Args(Extend(ShapeArgs(args, b), bs)));
        case _ =>
      }
    }
  }

  lemma ExtendGood(es: List<Entry>, bs: List<Entry>)
    requires GoodEntries(es) && GoodEntries(bs) && bs.Cons?
    ensures GoodEntries(Extend(es, bs))
  {
    hide GoodEntry;
    AppendGood(es, bs);
    AnythingGood();
  }

  lemma AnythingGood()
    ensures GoodEntry(Nothing)
  {
  }

  lemma {:induction false} BindingsGood(l: List<Binding>, b: nat)
    requires LegibleBindings(l)
    ensures GoodEntries(ShapeBindings(l, b))
    decreases l, 1
  {
    hide LegibleTy, GoodForm, ShapeTy, NameLike, Worded, NameText;
    if l.Cons? {
      NameReads(l.head.name);
      TyGood(l.head.ty, b);
      BindingsGood(l.tail, b);
    }
  }

  // ---- how texts begin ---------------------------------------------------

  lemma AfterEnds(x: string)
    requires AfterRoute(x)
    ensures WordEnds(x) && (x != "" ==> x[0] != ':' && x[0] != '<' && x[0] != '(' && x[0] != '\'' && x[0] != 'a')
  {
    if x != "" && (StartsWith(x, " as ") || StartsWith(x, " + ")) {
      assert x[0] == x[..3][0] == ' ';
    }
  }

  lemma SegsBegin(l: List<Seg>, v: bool, x: string)
    requires AfterRoute(x)
    ensures var s := SegsK(l, v, x);
      && WordEnds(s) && (l.Cons? ==> s != "" && (s[0] == ':' || s[0] == '<'))
      && (l.Nil? ==> s == x)
  {
    hide EntriesK, Dec, Label, After;
    AfterEnds(x);
  }

  /** The word a path starts with, and what comes behind it. */
  lemma RouteWord(r: Route, v: bool, x: string)
    requires GoodRoute(r) && r.head.Word? && AfterRoute(x)
    ensures var s := RouteK(r, v, x);
      FirstWord(s) == r.head.text && AfterWord(s) == SegsK(r.segs, v, x) && s != "" && NameChar(s[0])
  {
    hide SegsK, GoodSegs, NameLike, WordEnds, FirstWord, AfterWord, After;
    SegsBegin(r.segs, v, x);
    WordIs(r.head.text, SegsK(r.segs, v, x));
    WordBegins(r.head.text, SegsK(r.segs, v, x));
  }

  lemma WordBegins(w: string, x: string)
    requires GoodWord(w)
    ensures w + x != "" && NameChar((w + x)[0])
  {
    assert (w + x)[0] == w[0];
  }

  lemma NotAs(s: string)
    requires s != "" ==> (s[0] == '<' || s[0] == '\'' || (NameChar(s[0]) && FirstWord(s) != "as") || s[0] != 'a')
    ensures !StartsWith(s, "as ")
  {
    if StartsWith(s, "as ") {
      assert s[0] == s[..3][0] && s[1] == s[..3][1] && s[2] == s[..3][2];
      assert s == "as" + s[2..];
      WordIs("as", s[2..]);
    }
  }

  lemma RouteNotAs(r: Route, v: bool, x: string)
    requires GoodRoute(r) && AfterRoute(x)
    ensures var s := RouteK(r, v, x);
      s != "" && !StartsWith(s, "as ") && (s[0] == '<' || NameChar(s[0]))
  {
    hide SegsK, FormK, MoreK, FirstWord, AfterWord, After, StartsWith, NameChar;
    if r.head.Word? {
      RouteWord(r, v, x);
    }
    NotAs(RouteK(r, v, x));
  }

  lemma LifeBegins(l: Life, x: string)
    ensures var s := LifeText(l) + x; |s| > 1 && s[0] == '\'' && s[1] != '\\'
  {
    hide Dec;
  }

  lemma TraitsNotAs(l: List<Route>, life: Option<Life>, x: string)
    requires GoodRoutes(l) && After(x)
    ensures var s := TraitsK(l, life, x);
      && !StartsWith(s, "as ")
      && (l.Cons? ==> s != "" && (s[0] == '<' || NameChar(s[0])))
      && (l.Nil? && life.Some? ==> s != "" && s[0] == '\'')
      && (l.Nil? && life.None? ==> s == x)
  {
    hide RouteK, GoodRoute, LifeText, After, StartsWith, NameChar, FirstWord;
    AfterEnds(x);
    if l.Cons? {
      var z := if l.tail.Nil? && life.None? then x else " + " + TraitsK(l.tail, life, x);
      PlusFollows(TraitsK(l.tail, life, x));
      RouteNotAs(l.head, false, z);
    } else {
      if life.Some? {
        LifeBegins(life.value, x);
      }
      NotAs(TraitsK(l, life, x));
    }
  }

  lemma PlusFollows(x: string)
    ensures AfterRoute(" + " + x)
  {
    assert (" + " + x)[..3] == " + ";
  }

  /** What can be told of a type or a constant from how it begins. */
  datatype Look = OfBang | OfDots | OfMinus | OfLetter | OfBracket | OfParen | OfAmp | OfStar | OfFn | OfDyn | OfRoute

  function LookOf(s: string): Look {
    if s == "" then OfRoute
    else if s[0] == '!' then OfBang
    else if s[0] == '.' then OfDots
    else if s[0] == '-' then OfMinus
    else if s[0] == '\'' then OfLetter
    else if s[0] == '[' then OfBracket
    else if s[0] == '(' then OfParen
    else if s[0] == '&' then OfAmp
    else if s[0] == '*' then OfStar
    else if StartsWith(AfterWord(s), "(") then OfFn
    else if StartsWith(AfterWord(s), " ") && !StartsWith(AfterWord(s), " as ") then
      if FirstWord(s) == "dyn" then OfDyn else OfFn
    else OfRoute
  }

  function LookFor(f: Form): Look {
    match f
    case Bang => OfBang
    case Dots => OfDots
    case Minus(_) => OfMinus
    case Letter(_) => OfLetter
    case SliceOf(_) => OfBracket
    case ArrayOf(_, _) => OfBracket
    case TupleOf(_) => OfParen
    case RefTo(_, _, _) => OfAmp
    case PtrTo(_, _) => OfStar
    case FnOf(_, _, _, _) => OfFn
    case DynOf(_, _) => OfDyn
    case Is(_) => OfRoute
  }

  lemma FormLooks(f: Form, x: string)
    requires GoodForm(f) && After(x)
    ensures LookOf(FormK(f, x)) == LookFor(f)
  {
    hide GoodForms, GoodRoutes, GoodRoute, FormsK, TraitsK, RouteK, AbiK, RetK, LifeText, Dec, After, FirstWord, AfterWord, StartsWith, NameLike;
    match f
    case FnOf(u, abi, ps, ret) => FnLooks(f, x);
    case DynOf(l, life) => DynLooks(l, life, x);
    case Is(r) => RouteLooks(r, x);
    case _ =>
  }

  lemma RouteLooks(r: Route, x: string)
    requires GoodRoute(r) && After(x)
    ensures LookOf(RouteK(r, false, x)) == OfRoute
  {
    hide SegsK, FormK, MoreK, FirstWord, AfterWord, GoodForm, GoodEntries, GoodSegs, NameLike, After;
    var s := RouteK(r, false, x);
    if r.head.Word? {
      RouteWord(r, false, x);
      SegsBegin(r.segs, false, x);
      BehindRoute(r.segs, x);
      assert s[0] != '!' && s[0] != '.' && s[0] != '-' && s[0] != '\'' && s[0] != '[' && s[0] != '(' && s[0] != '&' && s[0] != '*';
    } else {
      assert s[0] == '<';
      NoWord(s);
    }
  }

  lemma NoWord(s: string)
    requires s != "" && !NameChar(s[0])
    ensures FirstWord(s) == "" && AfterWord(s) == s && !StartsWith(s, " ") == (s[0] != ' ') && StartsWith(s, "(") == (s[0] == '(')
  {
    assert s[0..] == s;
    assert s[..1] == [s[0]];
  }

  lemma BehindRoute(l: List<Seg>, x: string)
    requires After(x)
    ensures var s := SegsK(l, false, x);
      !StartsWith(s, "(") && (StartsWith(s, " ") ==> StartsWith(s, " as "))
  {
    hide SegK;
    AfterEnds(x);
    SegsBegin(l, false, x);
    var s := SegsK(l, false, x);
    assert s != "" ==> s[..1] == [s[0]];
  }

  lemma DynLooks(l: List<Route>, life: Option<Life>, x: string)
    requires GoodRoutes(l) && After(x)
    ensures LookOf("dyn " + TraitsK(l, life, x)) == OfDyn
  {
    hide TraitsK, GoodRoutes, After, FirstWord, AfterWord;
    TraitsNotAs(l, life, x);
    var s := TraitsK(l, life, x);
    assert "dyn " + s == "dyn" + (" " + s);
    WordIs("dyn", " " + s);
    BlankAs(s);
    assert ("dyn " + s)[0] == 'd';
  }

  lemma BlankAs(s: string)
    ensures StartsWith(" " + s, " ") && !StartsWith(" " + s, "(")
    ensures StartsWith(" " + s, " as ") <==> StartsWith(s, "as ")
  {
    var t := " " + s;
    assert t[..1] == " ";
    if |s| >= 3 {
      assert t[..4] == " " + s[..3];
      assert " as " == " " + "as ";
      assert t[..4][1..] == s[..3] && " as "[1..] == "as ";
    }
  }

  /** The word a function type starts with, and what follows it. */
  lemma FnSplits(f: Form, x: string) returns (w: string, r: string)
    requires f.FnOf?
    ensures FormK(f, x) == w + r && FirstWord(w + r) == w && AfterWord(w + r) == r
    ensures w in {"unsafe", "extern", "fn"} && r != ""
    ensures r[0] == '(' || (r[0] == ' ' && |r| > 1 && r[1] in {'e', 'f', '\"'})
  {
    hide FormsK, RetK, FirstWord, AfterWord;
    var open := FormsK(f.params, ")" + RetK(f.ret, x));
    var body := "fn(" + open;
    if f.isUnsafe {
      w, r := "unsafe", " " + AbiK(f.abi, body);
    } else if f.abi.Some? {
      w, r := "extern", " \"" + (f.abi.value + ("\" " + body));
    } else {
      w, r := "fn", "(" + open;
    }
    WordIs(w, r);
  }

  lemma FnLooks(f: Form, x: string)
    requires f.FnOf?
    ensures LookOf(FormK(f, x)) == OfFn && FormK(f, x)[0] != 'a'
    ensures FirstWord(FormK(f, x)) in {"unsafe", "extern", "fn"}
  {
    hide FormK, FirstWord, AfterWord;
    var w, r := FnSplits(f, x);
    assert r[..1] == [r[0]];
    assert (w + r)[0] == w[0];
    NotLike(r, 'a', " as ");
  }

  /** A text that differs from another in its second character does not start with it. */
  lemma NotLike(r: string, c: char, s: string)
    requires |s| > 1 && s[1] == c && r != "" && (r[0] != s[0] || (|r| > 1 && r[1] != c))
    ensures !StartsWith(r, s)
  {
    assert |r| >= |s| ==> r[..|s|][0] == r[0] && r[..|s|][1] == r[1];
  }

  /** The first character of a type or a constant. */
  lemma FormBegins(f: Form, x: string)
    requires GoodForm(f) && After(x)
    ensures var s := FormK(f, x);
      && s != "" && s[0] !in {')', '>', ',', ' ', ']', ';', '='}
      && (s[0] == '\'' ==> |s| > 1 && s[1] == '\\')
      && !StartsWith(s, "as ")
  {
    hide GoodForms, GoodRoutes, GoodRoute, FormsK, TraitsK, RouteK, AbiK, RetK, LifeText, Dec, After, FirstWord, AfterWord, StartsWith, NameLike;
    match f
    case FnOf(_, _, _, _) =>
      FnLooks(f, x);
      FnBegins(f, x);
      NotAs(FormK(f, x));
    case DynOf(l, life) => NotAs(FormK(f, x));
    case Is(r) => RouteNotAs(r, false, x);
    case _ => NotAs(FormK(f, x));
  }

  lemma FnBegins(f: Form, x: string)
    requires f.FnOf?
    ensures FormK(f, x) != "" && FormK(f, x)[0] in {'u', 'e', 'f'}
    ensures FormK(f, x)[0] == 'u' <==> f.isUnsafe
  {
    hide FormsK, RetK;
  }

  // ---- lifetimes ---------------------------------------------------------

  predicate LifeStop(c: char) {
    c == ' ' || c == ',' || c == '>' || c == ')' || c == ']' || c == ';'
  }

  predicate LifeEnds(x: string) {
    x == "" || LifeStop(x[0])
  }

  predicate NoStop(s: string) {
    forall i :: 0 <= i < |s| ==> !LifeStop(s[i])
  }

  lemma NoLonger(w: string, x: string, u: string, y: string)
    requires NoStop(w) && NoStop(u) && LifeEnds(x) && w + x == u + y
    ensures |w| >= |u|
  {
    hide LifeStop;
    var s := w + x;
    assert forall i :: 0 <= i < |u| ==> s[i] == u[i];
    assert |w| < |s| ==> s[|w|] == x[0];
    assert |w| < |s| ==> LifeStop(s[|w|]);
    assert |w + x| == |u + y|;
  }

  lemma StopSplit(w: string, x: string, u: string, y: string)
    requires NoStop(w) && NoStop(u) && LifeEnds(x) && LifeEnds(y) && w + x == u + y
    ensures w == u && x == y
  {
    hide NoStop, LifeEnds;
    NoLonger(w, x, u, y);
    NoLonger(u, y, w, x);
    var s := w + x;
    assert s[..|w|] == w && s[|w|..] == x && s[..|u|] == u && s[|u|..] == y;
  }

  lemma LifeNoStop(l: Life)
    ensures NoStop(LifeText(l))
  {
    hide Dec;
  }

  lemma IntsApart(m: int, n: int)
    requires IntText(m) == IntText(n)
    ensures m == n
  {
    hide Dec;
    IntBegins(m);
    IntBegins(n);
    if m < 0 {
      assert IntText(m)[1..] == Dec(-m) && IntText(n)[1..] == Dec(-n);
      assert DecValue(Dec(-m)) == DecValue(Dec(-n));
    } else {
      assert DecValue(Dec(m)) == DecValue(Dec(n));
    }
  }

  lemma IntBegins(n: int)
    ensures IntText(n) != "" && (IntText(n)[0] == '-' <==> n < 0)
  {
    hide Dec;
  }

  lemma LifesApart(a: Life, b: Life)
    requires LifeText(a) == LifeText(b)
    ensures a == b
  {
    hide IntText;
    LifeSize(a);
    LifeSize(b);
    if a.Level? && !(0 <= a.n < 26) {
      assert LifeText(a)[2..] == IntText(a.n) && LifeText(b)[2..] == IntText(b.n);
      IntsApart(a.n, b.n);
    }
  }

  /** The three ways a lifetime reads. */
  lemma LifeSize(a: Life)
    ensures var s := LifeText(a);
      && |s| >= 2 && (|s| == 2 && s[1] == '_' <==> a.Anon?)
      && (|s| == 2 && s[1] != '_' <==> a.Level? && 0 <= a.n < 26)
  {
    hide IntText;
    if a.Level? {
      IntBegins(a.n);
    }
  }

  lemma LivesApart(a: Life, x: string, b: Life, y: string)
    requires LifeEnds(x) && LifeEnds(y) && LifeText(a) + x == LifeText(b) + y
    ensures a == b && x == y
  {
    hide LifeText, LifeEnds;
    LifeNoStop(a);
    LifeNoStop(b);
    StopSplit(LifeText(a), x, LifeText(b), y);
    LifesApart(a, b);
  }

  lemma AfterIsStop(x: string)
    requires AfterRoute(x)
    ensures LifeEnds(x)
  {
    if StartsWith(x, " as ") || StartsWith(x, " + ") {
      assert x[0] == x[..3][0];
    }
  }

  // ---- one reading only --------------------------------------------------

  lemma {:induction false} FormApart(f: Form, g: Form, x: string, y: string)
    requires GoodForm(f) && GoodForm(g) && After(x) && After(y) && FormK(f, x) == FormK(g, y)
    ensures f == g && x == y
    decreases f, 2
  {
    hide GoodForm, After, FormK, LookOf;
    FormLooks(f, x);
    FormLooks(g, y);
    match f
    case Bang => PointsApart(f, g, x, y);
    case Dots => PointsApart(f, g, x, y);
    case Minus(_) => MinusApart(f, g, x, y);
    case Letter(_) => LettersApart(f, g, x, y);
    case SliceOf(_) => BracketsApart(f, g, x, y);
    case ArrayOf(_, _) => BracketsApart(f, g, x, y);
    case TupleOf(_) => TuplesApart(f, g, x, y);
    case RefTo(_, _, _) => RefsApart(f, g, x, y);
    case PtrTo(_, _) => PtrsApart(f, g, x, y);
    case FnOf(_, _, _, _) => FnsApart(f, g, x, y);
    case DynOf(_, _) => DynsApart(f, g, x, y);
    case Is(_) => IsApart(f, g, x, y);
  }

  lemma PointsApart(f: Form, g: Form, x: string, y: string)
    requires (f.Bang? && g.Bang?) || (f.Dots? && g.Dots?)
    requires FormK(f, x) == FormK(g, y)
    ensures f == g && x == y
  {
    Cancel(if f.Bang? then "!" else "...", x, y);
  }

  lemma DecLike(n: nat)
    ensures NameLike(Dec(n))
  {
    hide Dec;
  }

  lemma MinusApart(f: Form, g: Form, x: string, y: string)
    requires f.Minus? && g.Minus? && After(x) && After(y) && FormK(f, x) == FormK(g, y)
    ensures f == g && x == y
  {
    hide Dec, NameLike;
    Cancel("-", Dec(f.n) + x, Dec(g.n) + y);
    DecLike(f.n);
    DecLike(g.n);
    AfterEnds(x);
    AfterEnds(y);
    WordSplit(Dec(f.n), x, Dec(g.n), y);
    assert DecValue(Dec(f.n)) == DecValue(Dec(g.n));
  }

  lemma LettersApart(f: Form, g: Form, x: string, y: string)
    requires f.Letter? && g.Letter? && GoodForm(f) && GoodForm(g) && FormK(f, x) == FormK(g, y)
    ensures f == g && x == y
  {
    hide NameLike;
    var a, b := "}'" + x, "}'" + y;
    Cancel("'\\u{", f.digits + a, g.digits + b);
    assert a[0] == '}' && b[0] == '}';
    WordSplit(f.digits, a, g.digits, b);
    Cancel("}'", x, y);
  }

  lemma BracketsApart(f: Form, g: Form, x: string, y: string)
    requires (f.SliceOf? || f.ArrayOf?) && (g.SliceOf? || g.ArrayOf?)
    requires GoodForm(f) && GoodForm(g) && After(x) && After(y) && FormK(f, x) == FormK(g, y)
    ensures f == g && x == y
    decreases f, 1
  {
    hide After;
    var a := if f.SliceOf? then "]" + x else "; " + FormK(f.len, "]" + x);
    var b := if g.SliceOf? then "]" + y else "; " + FormK(g.len, "]" + y);
    assert a[0] == (if f.SliceOf? then ']' else ';') && b[0] == (if g.SliceOf? then ']' else ';');
    Cancel("[", FormK(f.elem, a), FormK(g.elem, b));
    ClosesAfter(a);
    ClosesAfter(b);
    FormApart(f.elem, g.elem, a, b);
    if f.SliceOf? {
      Cancel("]", x, y);
    } else {
      Cancel("; ", FormK(f.len, "]" + x), FormK(g.len, "]" + y));
      ClosesAfter("]" + x);
      ClosesAfter("]" + y);
      FormApart(f.len, g.len, "]" + x, "]" + y);
      Cancel("]", x, y);
    }
  }

  lemma ClosesAfter(x: string)
    requires x != "" && x[0] in {',', '>', ')', ']', ';'}
    ensures After(x)
  {
  }

  lemma PtrsApart(f: Form, g: Form, x: string, y: string)
    requires f.PtrTo? && g.PtrTo?
    requires GoodForm(f) && GoodForm(g) && After(x) && After(y) && FormK(f, x) == FormK(g, y)
    ensures f == g && x == y
    decreases f, 1
  {
    hide After;
    assert FormK(f, x)[1] == (if f.mutable then 'm' else 'c') && FormK(g, y)[1] == (if g.mutable then 'm' else 'c');
    Cancel(if f.mutable then "*mut " else "*const ", FormK(f.target, x), FormK(g.target, y));
    FormApart(f.target, g.target, x, y);
  }

  /** The rest of a list, behind its first type. */
  function RestK(l: List<Form>, x: string): string
    requires l.Cons?
  {
    if l.tail.Nil? then x else ", " + FormsK(l.tail, x)
  }

  lemma {:induction false} FormListApart(l: List<Form>, m: List<Form>, x: string, y: string)
    requires GoodForms(l) && GoodForms(m) && FormsK(l, x) == FormsK(m, y)
    requires x != "" && x[0] == ')' && y != "" && y[0] == ')'
    ensures l == m && x == y
    decreases l, 1
  {
    hide GoodForm, FormK, After;
    ListBegins(l, x);
    ListBegins(m, y);
    if l.Cons? {
      var a, b := RestK(l, x), RestK(m, y);
      ClosesAfter(a);
      ClosesAfter(b);
      FormApart(l.head, m.head, a, b);
      if l.tail.Cons? {
        Cancel(", ", FormsK(l.tail, x), FormsK(m.tail, y));
      }
      FormListApart(l.tail, m.tail, x, y);
    }
  }

  lemma ListBegins(l: List<Form>, x: string)
    requires GoodForms(l) && x != "" && x[0] == ')'
    ensures var s := FormsK(l, x); s != "" && (s[0] == ')' <==> l.Nil?)
  {
    hide GoodForm, FormK, After, StartsWith;
    if l.Cons? {
      ClosesAfter(RestK(l, x));
      FormBegins(l.head, RestK(l, x));
    }
  }

  lemma TuplesApart(f: Form, g: Form, x: string, y: string)
    requires f.TupleOf? && g.TupleOf?
    requires GoodForm(f) && GoodForm(g) && FormK(f, x) == FormK(g, y)
    ensures f == g && x == y
    decreases f, 1
  {
    hide After, FormsK;
    var l, m := f.elems, g.elems;
    var a, b := TupleK(l, x), TupleK(m, y);
    Cancel("(", a, b);
    TupleBegins(l, x);
    TupleBegins(m, y);
    if l.Nil? {
      NilTuple(x);
      NilTuple(y);
      Cancel(")", x, y);
    } else {
      var p, q := TupleRest(l, x), TupleRest(m, y);
      ClosesAfter(p);
      ClosesAfter(q);
      FormApart(l.head, m.head, p, q);
      if l.tail.Nil? {
        Cancel(",)", x, y);
      } else {
        Cancel(", ", FormsK(l.tail, ")" + x), FormsK(m.tail, ")" + y));
        FormListApart(l.tail, m.tail, ")" + x, ")" + y);
        Cancel(")", x, y);
      }
    }
  }

  function TupleK(l: List<Form>, x: string): string {
    if l.Cons? && l.tail.Nil? then FormK(l.head, ",)" + x) else FormsK(l, ")" + x)
  }

  lemma NilTuple(x: string)
    ensures TupleK(Nil, x) == ")" + x
  {
  }

  /** Behind the first of a tuple. */
  function TupleRest(l: List<Form>, x: string): (r: string)
    requires l.Cons?
    ensures |r| > 1 && r[0] == ',' && (r[1] == ')' <==> l.tail.Nil?)
  {
    if l.tail.Nil? then ",)" + x else ", " + FormsK(l.tail, ")" + x)
  }

  lemma TupleBegins(l: List<Form>, x: string)
    requires GoodForms(l)
    ensures var s := TupleK(l, x); s != "" && (s[0] == ')' <==> l.Nil?)
    ensures l.Cons? ==> TupleK(l, x) == FormK(l.head, TupleRest(l, x))
  {
    hide GoodForm, FormK, After, StartsWith;
    if l.Cons? {
      ClosesAfter(TupleRest(l, x));
      FormBegins(l.head, TupleRest(l, x));
    }
  }

  /** A reference behind its lifetime. */
  function MutK(m: bool, e: Form, x: string): string {
    (if m then "mut " else "") + FormK(e, x)
  }

  predicate ReadsMut(s: string) {
    StartsWith(s, "mut ") && !StartsWith(s, "mut as ")
  }

  lemma MutShows(m: bool, e: Form, x: string)
    requires GoodForm(e) && After(x)
    ensures ReadsMut(MutK(m, e, x)) <==> m
  {
    hide GoodForm, FormK, After, FirstWord, AfterWord;
    var s := FormK(e, x);
    if m {
      FormBegins(e, x);
      MutAs(s);
    } else {
      assert MutK(m, e, x) == s;
      if StartsWith(s, "mut ") {
        PlainMut(e, x);
      }
    }
  }

  lemma MutAs(s: string)
    ensures StartsWith("mut " + s, "mut ") && (StartsWith("mut " + s, "mut as ") <==> StartsWith(s, "as "))
  {
    var t := "mut " + s;
    assert t[..4] == "mut ";
    if |s| >= 3 {
      assert t[..7] == "mut " + s[..3] && "mut as " == "mut " + "as ";
      assert t[..7][4..] == s[..3] && "mut as "[4..] == "as ";
    }
  }

  /** A type that starts with the word `mut` and a blank is a crate of that name before the
      word `as`. */
  lemma PlainMut(e: Form, x: string)
    requires GoodForm(e) && After(x) && StartsWith(FormK(e, x), "mut ")
    ensures StartsWith(FormK(e, x), "mut as ")
  {
    hide GoodForm, FormK, After;
    var s := FormK(e, x);
    var r := s[3..];
    assert s[..4] == "mut " && s == "mut" + r && r[0] == s[..4][3] == ' ';
    WordIs("mut", r);
    assert r[..1] == " ";
    FormLooks(e, x);
    assert s[0] == s[..4][0] == 'm';
    if e.FnOf? {
      FnLooks(e, x);
    }
    assert StartsWith(r, " as ");
    assert s[..7] == "mut" + r[..4] == "mut as ";
  }

  lemma RefsApart(f: Form, g: Form, x: string, y: string)
    requires f.RefTo? && g.RefTo?
    requires GoodForm(f) && GoodForm(g) && After(x) && After(y) && FormK(f, x) == FormK(g, y)
    ensures f == g && x == y
    decreases f, 1
  {
    hide After, LifeText, ReadsMut;
    var a, b := MutK(f.mutable, f.target, x), MutK(g.mutable, g.target, y);
    Cancel("&", LifeK(f.life, a), LifeK(g.life, b));
    LifeShows(f.life, f.mutable, f.target, x);
    LifeShows(g.life, g.mutable, g.target, y);
    if f.life.Some? {
      LivesApart(f.life.value, " " + a, g.life.value, " " + b);
      Cancel(" ", a, b);
    }
    MutShows(f.mutable, f.target, x);
    MutShows(g.mutable, g.target, y);
    Cancel(if f.mutable then "mut " else "", FormK(f.target, x), FormK(g.target, y));
    FormApart(f.target, g.target, x, y);
  }

  function LifeK(life: Option<Life>, x: string): string {
    match life
    case None => x
    case Some(a) => LifeText(a) + (" " + x)
  }

  /** A reference shows whether it has a lifetime. */
  lemma LifeShows(life: Option<Life>, m: bool, e: Form, x: string)
    requires GoodForm(e) && After(x)
    ensures var s := LifeK(life, MutK(m, e, x));
      |s| > 0 && ((s[0] == '\'' && |s| > 1 && s[1] != '\\') <==> life.Some?)
  {
    hide GoodForm, FormK, After, LifeText, StartsWith;
    FormBegins(e, x);
    if life.Some? {
      LifeBegins(life.value, " " + MutK(m, e, x));
    }
  }

  lemma RetApart(r: Form, q: Form, x: string, y: string)
    requires GoodForm(r) && GoodForm(q) && After(x) && After(y) && RetK(r, x) == RetK(q, y)
    ensures r == q && x == y
    decreases r, 3
  {
    hide GoodForm, FormK;
    ArrowShows(r, x);
    ArrowShows(q, y);
    if r != TupleOf(Nil) {
      Cancel(" -> ", FormK(r, x), FormK(q, y));
      FormApart(r, q, x, y);
    }
  }

  lemma ArrowShows(r: Form, x: string)
    requires After(x)
    ensures (|RetK(r, x)| > 1 && RetK(r, x)[1] == '-' && RetK(r, x)[0] == ' ') <==> r != TupleOf(Nil)
  {
    hide FormK;
    if StartsWith(x, " as ") {
      assert x[1] == x[..4][1];
    }
  }

  lemma AbisApart(a: Option<string>, b: Option<string>, x: string, y: string)
    requires (a.Some? ==> NameLike(a.value)) && (b.Some? ==> NameLike(b.value))
    requires x != "" && x[0] == 'f' && y != "" && y[0] == 'f' && AbiK(a, x) == AbiK(b, y)
    ensures a == b && x == y
  {
    hide NameLike;
    assert AbiK(a, x)[0] == 'f' <==> a.None?;
    assert AbiK(b, y)[0] == 'f' <==> b.None?;
    if a.Some? {
      var p, q := "\" " + x, "\" " + y;
      Cancel("extern \"", a.value + p, b.value + q);
      assert p[0] == '\"' && q[0] == '\"';
      WordSplit(a.value, p, b.value, q);
      Cancel("\" ", x, y);
    }
  }

  lemma FnsApart(f: Form, g: Form, x: string, y: string)
    requires f.FnOf? && g.FnOf?
    requires GoodForm(f) && GoodForm(g) && After(x) && After(y) && FormK(f, x) == FormK(g, y)
    ensures f == g && x == y
    decreases f, 1
  {
    hide After, NameLike, AbiK, FormsK, RetK, GoodForms;
    var p, q := RetK(f.ret, x), RetK(g.ret, y);
    var a, b := "fn(" + FormsK(f.params, ")" + p), "fn(" + FormsK(g.params, ")" + q);
    FnBegins(f, x);
    FnBegins(g, y);
    Cancel(if f.isUnsafe then "unsafe " else "", AbiK(f.abi, a), AbiK(g.abi, b));
    AbisApart(f.abi, g.abi, a, b);
    Cancel("fn(", FormsK(f.params, ")" + p), FormsK(g.params, ")" + q));
    FormListApart(f.params, g.params, ")" + p, ")" + q);
    Cancel(")", p, q);
    RetApart(f.ret, g.ret, x, y);
  }

  lemma DynsApart(f: Form, g: Form, x: string, y: string)
    requires f.DynOf? && g.DynOf?
    requires GoodForm(f) && GoodForm(g) && After(x) && After(y) && FormK(f, x) == FormK(g, y)
    ensures f == g && x == y
    decreases f, 1
  {
    hide After, TraitsK, GoodRoutes;
    Cancel("dyn ", TraitsK(f.traits, f.life, x), TraitsK(g.traits, g.life, y));
    TraitsApart(f.traits, f.life, g.traits, g.life, x, y);
  }

  /** Behind a trait. */
  function PlusK(l: List<Route>, life: Option<Life>, x: string): string
    requires l.Cons?
  {
    if l.tail.Nil? && life.None? then x else " + " + TraitsK(l.tail, life, x)
  }

  lemma PlusShows(l: List<Route>, life: Option<Life>, x: string)
    requires l.Cons? && After(x)
    ensures AfterRoute(PlusK(l, life, x))
    ensures StartsWith(PlusK(l, life, x), " + ") <==> !(l.tail.Nil? && life.None?)
  {
    hide TraitsK;
    if l.tail.Nil? && life.None? {
      if x != "" {
        assert StartsWith(x, " as ") ==> x[1] == x[..4][1];
        NotLike(x, '+', " + ");
      }
    } else {
      assert (" + " + TraitsK(l.tail, life, x))[..3] == " + ";
    }
  }

  lemma {:induction false} TraitsApart(l: List<Route>, a: Option<Life>, m: List<Route>, b: Option<Life>, x: string, y: string)
    requires GoodRoutes(l) && GoodRoutes(m) && After(x) && After(y) && TraitsK(l, a, x) == TraitsK(m, b, y)
    ensures l == m && a == b && x == y
    decreases l, 1
  {
    hide After, RouteK, GoodRoute, LifeText, StartsWith, NameChar;
    TraitsNotAs(l, a, x);
    TraitsNotAs(m, b, y);
    AfterEnds(x);
    AfterEnds(y);
    SureKinds();
    if l.Cons? {
      var p, q := PlusK(l, a, x), PlusK(m, b, y);
      PlusShows(l, a, x);
      PlusShows(m, b, y);
      RouteApart(l.head, m.head, false, p, q);
      if l.tail.Nil? && a.None? {
      } else {
        Cancel(" + ", TraitsK(l.tail, a, x), TraitsK(m.tail, b, y));
        TraitsApart(l.tail, a, m.tail, b, x, y);
      }
    } else if a.Some? {
      AfterIsStop(x);
      AfterIsStop(y);
      LivesApart(a.value, x, b.value, y);
    }
  }

  lemma SureKinds()
    ensures !NameChar('<') && !NameChar('\'') && !NameChar(' ')
  {
  }

  lemma IsApart(f: Form, g: Form, x: string, y: string)
    requires f.Is? && g.Is?
    requires GoodForm(f) && GoodForm(g) && After(x) && After(y) && FormK(f, x) == FormK(g, y)
    ensures f == g && x == y
    decreases f, 1
  {
    hide GoodRoute, RouteK, After;
    assert AfterRoute(x) && AfterRoute(y);
    RouteApart(f.route, g.route, false, x, y);
  }

  // ---- paths -------------------------------------------------------------

  lemma {:induction false} RouteApart(r: Route, q: Route, v: bool, x: string, y: string)
    requires GoodRoute(r) && GoodRoute(q) && AfterRoute(x) && AfterRoute(y) && RouteK(r, v, x) == RouteK(q, v, y)
    ensures r == q && x == y
    decreases r, 2
  {
    hide AfterRoute, SegsK, FormK, MoreK, NameLike, GoodForm, GoodEntries, GoodSegs, FirstWord, AfterWord;
    HeadShows(r, v, x);
    HeadShows(q, v, y);
    if r.head.Word? {
      RouteWord(r, v, x);
      RouteWord(q, v, y);
      SegsApart(r.segs, q.segs, v, x, y);
    } else {
      AnglesApart(r, q, v, x, y);
    }
  }

  lemma HeadShows(r: Route, v: bool, x: string)
    requires GoodRoute(r)
    ensures RouteK(r, v, x) != "" && (RouteK(r, v, x)[0] == '<' <==> !r.head.Word?)
  {
    hide SegsK, FormK, MoreK;
    SureKinds();
  }

  /** Behind the self type of an impl. */
  function SelfRest(h: Head, z: string): string
    requires !h.Word?
  {
    match h
    case Self(_, more) => MoreK(more, z)
    case As(_, tr, more) => " as " + RouteK(tr, false, MoreK(more, z))
  }

  lemma SelfRestShows(h: Head, z: string)
    requires !h.Word? && z != "" && z[0] == '>'
    ensures After(SelfRest(h, z)) && SelfRest(h, z) != ""
    ensures SelfRest(h, z)[0] == ' ' <==> h.As?
  {
    hide RouteK, EntriesK;
    if h.As? {
      var t := RouteK(h.tr, false, MoreK(h.more, z));
      assert (" as " + t)[..4] == " as ";
    }
  }

  lemma MoreShows(l: List<Entry>, z: string)
    requires z != "" && z[0] == '>'
    ensures var s := MoreK(l, z); s != "" && s[0] in {',', '>'} && (s[0] == '>' <==> l.Nil?)
  {
    hide EntriesK;
  }

  lemma AnglesApart(r: Route, q: Route, v: bool, x: string, y: string)
    requires GoodRoute(r) && GoodRoute(q) && AfterRoute(x) && AfterRoute(y) && RouteK(r, v, x) == RouteK(q, v, y)
    requires !r.head.Word? && !q.head.Word?
    ensures r == q && x == y
    decreases r, 1
  {
    hide AfterRoute, SegsK, FormK, MoreK, NameLike, GoodForm, GoodEntries, GoodSegs, After;
    var s, t := ">" + SegsK(r.segs, v, x), ">" + SegsK(q.segs, v, y);
    var a, b := SelfRest(r.head, s), SelfRest(q.head, t);
    Cancel("<", FormK(r.head.ty, a), FormK(q.head.ty, b));
    SelfRestShows(r.head, s);
    SelfRestShows(q.head, t);
    FormApart(r.head.ty, q.head.ty, a, b);
    if r.head.As? {
      AsApart(r.head, q.head, s, t);
    } else {
      MoreApart(r.head.more, q.head.more, s, t);
    }
    Cancel(">", SegsK(r.segs, v, x), SegsK(q.segs, v, y));
    SegsApart(r.segs, q.segs, v, x, y);
  }

  lemma AsApart(h: Head, k: Head, s: string, t: string)
    requires h.As? && k.As? && GoodHead(h) && GoodHead(k) && SelfRest(h, s) == SelfRest(k, t)
    requires s != "" && s[0] == '>' && t != "" && t[0] == '>'
    ensures h.tr == k.tr && h.more == k.more && s == t
    decreases h, 1
  {
    hide RouteK, MoreK, GoodForm, GoodEntries, GoodRoute;
    var a, b := MoreK(h.more, s), MoreK(k.more, t);
    Cancel(" as ", RouteK(h.tr, false, a), RouteK(k.tr, false, b));
    MoreShows(h.more, s);
    MoreShows(k.more, t);
    ClosesAfter(a);
    ClosesAfter(b);
    RouteApart(h.tr, k.tr, false, a, b);
    MoreApart(h.more, k.more, s, t);
  }

  lemma MoreApart(l: List<Entry>, m: List<Entry>, x: string, y: string)
    requires GoodEntries(l) && GoodEntries(m) && MoreK(l, x) == MoreK(m, y)
    requires x != "" && x[0] == '>' && y != "" && y[0] == '>'
    ensures l == m && x == y
    decreases l, 2
  {
    hide GoodEntries, EntriesK;
    MoreShows(l, x);
    MoreShows(m, y);
    if l.Cons? {
      Cancel(", ", EntriesK(l, x), EntriesK(m, y));
      EntriesApart(l, m, x, y);
    }
  }

  datatype SegLook = NoSeg | ItemSeg | InnerSeg | ArgsSeg

  /** What the next segment is, in a path that is a value or is not. */
  function SegLookOf(s: string, v: bool): SegLook {
    if s == "" || (s[0] != ':' && s[0] != '<') then NoSeg
    else if s[0] == '<' then ArgsSeg
    else if |s| > 2 && s[2] == '{' then InnerSeg
    else if |s| > 2 && s[2] == '<' && v then ArgsSeg
    else ItemSeg
  }

  function SegLookFor(l: List<Seg>): SegLook {
    match l
    case Nil => NoSeg
    case Cons(s, _) => (match s case Item(_) => ItemSeg case Inner(_, _, _) => InnerSeg case Args(_) => ArgsSeg)
  }

  lemma SegLooks(l: List<Seg>, v: bool, x: string)
    requires GoodSegs(l) && AfterRoute(x)
    ensures SegLookOf(SegsK(l, v, x), v) == SegLookFor(l)
  {
    hide EntriesK, Dec, Label, After, GoodEntries, AfterRoute;
    SegsEnd(x);
    if l.Cons? && l.head.Item? {
      ItemLooks(l.head.text, l.tail, v, x);
    }
  }

  lemma SegsEnd(x: string)
    requires AfterRoute(x)
    ensures x == "" || x[0] !in {':', '<', '{'}
  {
    AfterIsStop(x);
  }

  /** An item, its name empty or not. */
  lemma ItemLooks(w: string, rest: List<Seg>, v: bool, x: string)
    requires NameLike(w) && GoodSegs(rest) && AfterRoute(x)
    ensures SegLookOf("::" + (w + SegsK(rest, v, x)), v) == ItemSeg
  {
    hide EntriesK, Dec, Label, AfterRoute, GoodSegs;
    SegsEnd(x);
    var t := SegsK(rest, v, x);
    if w == "" {
      assert w + t == t;
    } else {
      assert (w + t)[0] == w[0] && NameChar(w[0]);
    }
  }

  lemma {:induction false} SegsApart(l: List<Seg>, m: List<Seg>, v: bool, x: string, y: string)
    requires GoodSegs(l) && GoodSegs(m) && AfterRoute(x) && AfterRoute(y) && SegsK(l, v, x) == SegsK(m, v, y)
    ensures l == m && x == y
    decreases l, 1
  {
    hide AfterRoute, SegK, GoodSeg, SegLookOf;
    SegLooks(l, v, x);
    SegLooks(m, v, y);
    if l.Cons? {
      var a, b := SegsK(l.tail, v, x), SegsK(m.tail, v, y);
      SegsBegin(l.tail, v, x);
      SegsBegin(m.tail, v, y);
      SegApart(l.head, m.head, v, a, b);
      SegsApart(l.tail, m.tail, v, x, y);
    }
  }

  lemma SegApart(s: Seg, t: Seg, v: bool, x: string, y: string)
    requires GoodSeg(s) && GoodSeg(t) && WordEnds(x) && WordEnds(y) && SegK(s, v, x) == SegK(t, v, y)
    requires (s.Item? && t.Item?) || (s.Inner? && t.Inner?) || (s.Args? && t.Args?)
    ensures s == t && x == y
    decreases s, 1
  {
    hide EntriesK, Dec, Label, NameLike, GoodEntries, WordEnds;
    if s.Item? {
      Cancel("::", s.text + x, t.text + y);
      WordSplit(s.text, x, t.text, y);
    } else if s.Inner? {
      InnersApart(s, t, v, x, y);
    } else {
      Cancel(if v then "::<" else "<", EntriesK(s.entries, ">" + x), EntriesK(t.entries, ">" + y));
      EntriesApart(s.entries, t.entries, ">" + x, ">" + y);
      Cancel(">", x, y);
    }
  }

  lemma LabelHas(ns: char, name: string)
    requires IsUpper(ns) && NameLike(name)
    ensures '#' !in Label(ns, name) && (':' in Label(ns, name) <==> name != "")
  {
    KindLike(ns);
    hide KindText;
    assert ':' !in KindText(ns) && '#' !in KindText(ns);
    assert ':' !in name && '#' !in name;
  }

  lemma KindLike(ns: char)
    requires IsUpper(ns)
    ensures NameLike(KindText(ns))
  {
  }

  lemma KindsApart(a: char, b: char)
    requires IsUpper(a) && IsUpper(b) && KindText(a) == KindText(b)
    ensures a == b
  {
  }

  lemma LabelsApart(a: char, n: string, b: char, m: string)
    requires IsUpper(a) && IsUpper(b) && NameLike(n) && NameLike(m) && Label(a, n) == Label(b, m)
    ensures a == b && n == m
  {
    hide KindText, NameLike;
    LabelHas(a, n);
    LabelHas(b, m);
    KindLike(a);
    KindLike(b);
    if n != "" {
      assert Label(a, n) == KindText(a) + (":" + n) && Label(b, m) == KindText(b) + (":" + m);
      WordSplit(KindText(a), ":" + n, KindText(b), ":" + m);
      Cancel(":", n, m);
    }
    KindsApart(a, b);
  }

  lemma InnersApart(s: Seg, t: Seg, v: bool, x: string, y: string)
    requires s.Inner? && t.Inner? && GoodSeg(s) && GoodSeg(t) && SegK(s, v, x) == SegK(t, v, y)
    ensures s == t && x == y
  {
    hide Dec, Label, NameLike;
    var a, b := Dec(s.dis) + ("}" + x), Dec(t.dis) + ("}" + y);
    Cancel("::{", Label(s.ns, s.text) + ("#" + a), Label(t.ns, t.text) + ("#" + b));
    LabelHas(s.ns, s.text);
    LabelHas(t.ns, t.text);
    FirstSplit(Label(s.ns, s.text), '#', a, Label(t.ns, t.text), b);
    DecLike(s.dis);
    DecLike(t.dis);
    assert ("}" + x)[0] == '}' && ("}" + y)[0] == '}';
    WordSplit(Dec(s.dis), "}" + x, Dec(t.dis), "}" + y);
    assert DecValue(Dec(s.dis)) == DecValue(Dec(t.dis));
    Cancel("}", x, y);
    LabelsApart(s.ns, s.text, t.ns, t.text);
  }

  // ---- generic arguments -------------------------------------------------

  datatype EntryLook = NoEntry | OfNothing | OfLife | OfForm | OfBinding

  function EntryLookOf(s: string): EntryLook {
    if s == "" || s[0] == '>' then NoEntry
    else if s[0] == ',' then OfNothing
    else if s[0] == '\'' && |s| > 1 && s[1] != '\\' then OfLife
    else if NameChar(s[0]) && StartsWith(AfterWord(s), " = ") then OfBinding
    else OfForm
  }

  function EntryLookFor(e: Entry): EntryLook {
    match e
    case Nothing => OfNothing
    case Lives(_) => OfLife
    case Holds(_) => OfForm
    case Binds(_, _) => OfBinding
  }

  lemma EqualsFollows(w: string, x: string)
    requires GoodWord(w)
    ensures var s := w + (" = " + x); FirstWord(s) == w && AfterWord(s) == " = " + x && StartsWith(AfterWord(s), " = ")
  {
    WordIs(w, " = " + x);
    assert (" = " + x)[..3] == " = ";
  }

  lemma HoldsLooks(f: Form, z: string)
    requires GoodForm(f) && z != "" && (z[0] == ',' || z[0] == '>')
    ensures EntryLookOf(FormK(f, z)) == OfForm
  {
    hide GoodForm, FormK, FirstWord, AfterWord;
    var s := FormK(f, z);
    ClosesAfter(z);
    FormBegins(f, z);
    FormLooks(f, z);
    if NameChar(s[0]) {
      NotEquals(f, z);
    }
  }

  /** No type reads like a name and an equals sign. */
  lemma NotEquals(f: Form, z: string)
    requires GoodForm(f) && z != "" && (z[0] == ',' || z[0] == '>') && FormK(f, z) != "" && NameChar(FormK(f, z)[0])
    ensures !StartsWith(AfterWord(FormK(f, z)), " = ")
  {
    hide FirstWord, AfterWord, GoodRoute, GoodRoutes, RouteK, TraitsK, FormsK, RetK, GoodForms;
    ClosesAfter(z);
    match f
    case FnOf(_, _, _, _) => FnNotEquals(f, z);
    case DynOf(l, life) =>
      TraitsNotAs(l, life, z);
      var s := TraitsK(l, life, z);
      assert "dyn " + s == "dyn" + (" " + s);
      WordIs("dyn", " " + s);
      BlankEquals(s);
    case Is(r) =>
      if r.head.Word? {
        RouteWord(r, false, z);
        SegsBegin(r.segs, false, z);
        FirstBlank(SegsK(r.segs, false, z));
      } else {
        HeadShows(r, false, z);
        SureKinds();
      }
    case _ =>
  }

  lemma FirstBlank(s: string)
    requires s != "" && s[0] != ' '
    ensures !StartsWith(s, " = ")
  {
    assert |s| >= 3 ==> s[..3][0] == s[0];
  }

  lemma BlankEquals(s: string)
    requires s == "" || s[0] != '='
    ensures !StartsWith(" " + s, " = ")
  {
    var t := " " + s;
    assert |t| >= 3 ==> t[..3][1] == s[0];
  }

  lemma FnNotEquals(f: Form, x: string)
    requires f.FnOf?
    ensures !StartsWith(AfterWord(FormK(f, x)), " = ")
  {
    hide FormK, AfterWord, FirstWord;
    var w, r := FnSplits(f, x);
    NotLike(r, '=', " = ");
  }

  lemma EntryLooks(e: Entry, z: string)
    requires GoodEntry(e) && z != "" && (z[0] == ',' || (z[0] == '>' && !e.Nothing?))
    ensures EntryLookOf(EntryK(e, z)) == EntryLookFor(e)
  {
    hide FormK, LifeText, GoodForm, FirstWord, AfterWord, NameChar, NameLike, StartsWith;
    match e
    case Nothing =>
    case Lives(l) => LifeBegins(l, z);
    case Holds(f) => HoldsLooks(f, z);
    case Binds(n, f) =>
      EqualsFollows(n, FormK(f, z));
      WordBegins(n, " = " + FormK(f, z));
      BindsLook(EntryK(e, z));
  }

  lemma BindsLook(s: string)
    requires s != "" && NameChar(s[0]) && StartsWith(AfterWord(s), " = ")
    ensures EntryLookOf(s) == OfBinding
  {
    hide AfterWord, StartsWith;
  }

  lemma EntryApart(e: Entry, d: Entry, x: string, y: string)
    requires GoodEntry(e) && GoodEntry(d) && EntryK(e, x) == EntryK(d, y)
    requires x != "" && (x[0] == ',' || (x[0] == '>' && !e.Nothing?))
    requires y != "" && (y[0] == ',' || (y[0] == '>' && !d.Nothing?))
    ensures e == d && x == y
    decreases e, 1
  {
    hide FormK, LifeText, GoodForm, NameLike, FirstWord, AfterWord, After, EntryLookOf;
    EntryLooks(e, x);
    EntryLooks(d, y);
    ClosesAfter(x);
    ClosesAfter(y);
    match e
    case Nothing =>
    case Lives(l) => LivesApart(l, x, d.life, y);
    case Holds(f) => FormApart(f, d.form, x, y);
    case Binds(n, f) =>
      EqualsFollows(n, FormK(f, x));
      EqualsFollows(d.name, FormK(d.form, y));
      Cancel(" = ", FormK(f, x), FormK(d.form, y));
      FormApart(f, d.form, x, y);
  }

  /** Behind the first of some entries. */
  function CommaK(l: List<Entry>, x: string): string
    requires l.Cons?
  {
    if l.tail.Nil? then x else ", " + EntriesK(l.tail, x)
  }

  lemma EntriesLook(l: List<Entry>, x: string)
    requires GoodEntries(l) && x != "" && x[0] == '>'
    ensures EntryLookOf(EntriesK(l, x)) == if l.Nil? then NoEntry else EntryLookFor(l.head)
  {
    hide GoodEntry, EntryK, EntryLookOf;
    if l.Cons? {
      EntryLooks(l.head, CommaK(l, x));
    } else {
      EndLook(x);
    }
  }

  lemma EndLook(x: string)
    requires x != "" && x[0] == '>'
    ensures EntryLookOf(x) == NoEntry
  {
  }

  lemma {:induction false} EntriesApart(l: List<Entry>, m: List<Entry>, x: string, y: string)
    requires GoodEntries(l) && GoodEntries(m) && EntriesK(l, x) == EntriesK(m, y)
    requires x != "" && x[0] == '>' && y != "" && y[0] == '>'
    ensures l == m && x == y
    decreases l, 1
  {
    hide GoodEntry, EntryK, EntryLookOf;
    EntriesLook(l, x);
    EntriesLook(m, y);
    if l.Cons? {
      var a, b := CommaK(l, x), CommaK(m, y);
      EntryApart(l.head, m.head, a, b);
      if l.tail.Cons? {
        Cancel(", ", EntriesK(l.tail, x), EntriesK(m.tail, y));
      }
      EntriesApart(l.tail, m.tail, x, y);
    }
  }

  // ---- identities --------------------------------------------------------

  /** Two trees have one text exactly when they have one shape. */
  lemma ReadShapeIff(s: Tree, t: Tree, b: nat, c: nat, v: bool)
    requires Legible(s) && Legible(t)
    ensures Read(s, b, v) == Read(t, c, v) <==> ShapeOf(s, b) == ShapeOf(t, c)
  {
    hide Read, Legible, ShapeOf, RouteK, GoodRoute;
    V0Shape.TreeReads(s, b, v, "");
    V0Shape.TreeReads(t, c, v, "");
    assert Read(s, b, v) + "" == Read(s, b, v) && Read(t, c, v) + "" == Read(t, c, v);
    TreeGood(s, b);
    TreeGood(t, c);
    if Read(s, b, v) == Read(t, c, v) {
      RouteApart(ShapeOf(s, b), ShapeOf(t, c), v, "", "");
    }
  }

  /** So the symbols of two trees, from whatever builds, demangle to one identity exactly
      when the trees have one shape. */
  lemma IdentitiesIff(s: Tree, t: Tree, d1: Build, d2: Build)
    requires WfTree(s) && WfTree(t) && Legible(s) && Legible(t) && Levels(s) <= MAX_DEPTH && Levels(t) <= MAX_DEPTH
    ensures var r1, r2 := Demangle(Mangle(s, d1)), Demangle(Mangle(t, d2));
      r1.Ok? && r2.Ok? && (r1.value == r2.value <==> ShapeOf(s, 0) == ShapeOf(t, 0))
  {
    hide WfTree, Legible, Levels, Mangle, Demangle, Read, ShapeOf;
    RoundTrip(s, d1);
    RoundTrip(t, d2);
    ReadShapeIff(s, t, 0, 0, true);
  }

  // ---- what a shape forgets ----------------------------------------------

  lemma {:induction false} SnocsApart<T>(l: List<T>, x: T, m: List<T>, y: T)
    requires Snoc(l, x) == Snoc(m, y)
    ensures l == m && x == y
  {
    if l.Cons? && m.Cons? {
      SnocsApart(l.tail, x, m.tail, y);
    }
  }

  /** Two items have one shape exactly when their parents do and they have one name, and, in
      an upper-case namespace, one namespace and one disambiguator. */
  lemma ItemShapesIff(ns: char, p: Tree, d: nat, n: Name, ms: char, q: Tree, e: nat, m: Name, b: nat)
    ensures ShapeOf(Nested(ns, p, d, n), b) == ShapeOf(Nested(ms, q, e, m), b) <==>
      && ShapeOf(p, b) == ShapeOf(q, b) && NameText(n) == NameText(m)
      && if IsUpper(ns) then ns == ms && d == e else !IsUpper(ms)
  {
    hide NameText, IsUpper;
    var s := if IsUpper(ns) then Inner(ns, d, NameText(n)) else Item(NameText(n));
    var t := if IsUpper(ms) then Inner(ms, e, NameText(m)) else Item(NameText(m));
    if ShapeOf(Nested(ns, p, d, n), b) == ShapeOf(Nested(ms, q, e, m), b) {
      SnocsApart(ShapeOf(p, b).segs, s, ShapeOf(q, b).segs, t);
    }
  }

  /** An instance keeps its arguments. */
  lemma InstanceShapesIff(p: Tree, args: List<Arg>, q: Tree, more: List<Arg>, b: nat)
    ensures ShapeOf(Generic(p, args), b) == ShapeOf(Generic(q, more), b) <==>
      ShapeOf(p, b) == ShapeOf(q, b) && ShapeArgs(args, b) == ShapeArgs(more, b)
  {
    hide ShapeArgs;
    if ShapeOf(Generic(p, args), b) == ShapeOf(Generic(q, more), b) {
      SnocsApart(ShapeOf(p, b).segs, Args(ShapeArgs(args, b)), ShapeOf(q, b).segs, Args(ShapeArgs(more, b)));
    }
  }

  /** The unit type and the empty tuple, and nothing else, have the shape of the unit type. */
  lemma UnitShapeIff(t: Ty, b: nat)
    ensures ShapeTy(t, b) == ShapeTy(Basic('u'), b) <==> t == Basic('u') || t == Tuple(Nil)
  {
    hide ShapeOf, ShapeVal, ShapeBounds, ShapeAbi;
    if t.Tuple? && t.elems.Cons? {
      assert ShapeTys(t.elems, b).Cons?;
    }
  }

  /** One place does not encode an item under two disambiguators, */
  lemma {:induction false} OneDisambiguator(z: string, p: nat, ns: char, parent: Tree, d: nat, e: nat, n: Name)
    requires p <= |z| && d != e
    ensures !(MatchTree(z, p, Nested(ns, parent, d, n)).Found? && MatchTree(z, p, Nested(ns, parent, e, n)).Found?)
    decreases p
  {
    hide Disambiguator, Backref, NameAt, At;
    if At(z, p, 'B') {
      if RefAt(z, p).Ok? {
        OneDisambiguator(z, RefAt(z, p).value, ns, parent, d, e, n);
      }
    }
  }

  /** nor the empty tuple and the unit type, */
  lemma {:induction false} OneType(z: string, p: nat)
    requires p <= |z|
    ensures !(MatchTy(z, p, Tuple(Nil)).Found? && MatchTy(z, p, Basic('u')).Found?)
    decreases p
  {
    hide Backref, MatchTys;
    if At(z, p, 'B') {
      if RefAt(z, p).Ok? {
        OneType(z, RefAt(z, p).value);
      }
    }
  }

  /** nor instances over the two. */
  lemma {:induction false} OneInstance(z: string, p: nat, base: Tree)
    requires p <= |z|
    ensures !(MatchTree(z, p, Over(base, Tuple(Nil))).Found? && MatchTree(z, p, Over(base, Basic('u'))).Found?)
    decreases p
  {
    hide Backref, MatchTy, MatchArgs;
    if At(z, p, 'B') {
      if RefAt(z, p).Ok? {
        OneInstance(z, RefAt(z, p).value, base);
      }
    } else if At(z, p, 'I') && MatchTree(z, p + 1, base).Found? {
      var q := MatchTree(z, p + 1, base).end;
      OneType(z, q);
      ArgMatches(z, q, Tuple(Nil));
      ArgMatches(z, q, Basic('u'));
    }
  }

  lemma ArgMatches(z: string, q: nat, t: Ty)
    requires q <= |z|
    ensures MatchArgs(z, q, Cons(TypeArg(t), Nil)).Found? ==> MatchTy(z, q, t).Found?
  {
    hide MatchTy;
    var a, rest := TypeArg(t), Nil;
    assert MatchArg(z, q, a) == MatchTy(z, q, t);
    assert MatchArg(z, q, a) == NotFound ==> MatchArgs(z, q, Cons(a, rest)) == NotFound;
  }

  /** So two items of one name under one parent, which differ in nothing but the
      disambiguator, have two symbols and one identity. */
  lemma SameNameCollides(parent: Tree, n: Name, d: nat, e: nat, d1: Build, d2: Build)
    requires WfTree(parent) && Legible(parent) && Worded(n) && d != e
    requires var s, t := Nested('v', parent, d, n), Nested('v', parent, e, n); Levels(s) <= MAX_DEPTH && Levels(t) <= MAX_DEPTH
    ensures var s, t := Nested('v', parent, d, n), Nested('v', parent, e, n);
      var r1, r2 := Demangle(Mangle(s, d1)), Demangle(Mangle(t, d2));
      s != t && Mangle(s, d1) != Mangle(t, d2) && r1.Ok? && r2.Ok? && r1.value == r2.value
  {
    hide WfTree, Legible, Levels, Mangle, Demangle, Read, Worded, NameText;
    var s, t := Nested('v', parent, d, n), Nested('v', parent, e, n);
    ItemHolds(parent, d, n);
    ItemHolds(parent, e, n);
    ItemShapesIff('v', parent, d, n, 'v', parent, e, n, 0);
    IdentitiesIff(s, t, d1, d2);
    MangleMatches(s, d1);
    MangleMatches(t, d2);
    if Mangle(s, d1) == Mangle(t, d2) {
      OneDisambiguator(Mangle(s, d1), 0, 'v', parent, d, e, n);
    }
  }

  lemma ItemHolds(parent: Tree, d: nat, n: Name)
    requires WfTree(parent) && Legible(parent) && Worded(n)
    ensures WfTree(Nested('v', parent, d, n)) && Legible(Nested('v', parent, d, n))
  {
    hide Worded;
  }

  /** And so have an instance over the empty tuple and one over the unit type. */
  lemma EmptyTupleCollides(base: Tree, d1: Build, d2: Build)
    requires WfTree(base) && Legible(base)
    requires Levels(Over(base, Tuple(Nil))) <= MAX_DEPTH && Levels(Over(base, Basic('u'))) <= MAX_DEPTH
    ensures var s, t := Over(base, Tuple(Nil)), Over(base, Basic('u'));
      var r1, r2 := Demangle(Mangle(s, d1)), Demangle(Mangle(t, d2));
      s != t && Mangle(s, d1) != Mangle(t, d2) && r1.Ok? && r2.Ok? && r1.value == r2.value
  {
    hide Levels, Mangle, Demangle, Read, ShapeOf;
    var s, t := Over(base, Tuple(Nil)), Over(base, Basic('u'));
    OverHolds(base, Tuple(Nil));
    OverHolds(base, Basic('u'));
    UnitShapeIff(Tuple(Nil), 0);
    OverShapes(base, Tuple(Nil), Basic('u'));
    IdentitiesIff(s, t, d1, d2);
    MangleMatches(s, d1);
    MangleMatches(t, d2);
    if Mangle(s, d1) == Mangle(t, d2) {
      OneInstance(Mangle(s, d1), 0, base);
    }
  }

  /** A generic item at one type. */
  function Over(base: Tree, ty: Ty): Tree {
    Generic(base, Cons(TypeArg(ty), Nil))
  }

  lemma OverHolds(base: Tree, ty: Ty)
    requires WfTree(base) && Legible(base) && WfTy(ty) && LegibleTy(ty)
    ensures WfTree(Over(base, ty)) && Legible(Over(base, ty))
  {
    hide WfTy, LegibleTy;
    var args := Cons(TypeArg(ty), Nil);
    assert WfArgs(args) && LegibleArgs(args);
  }

  lemma OverShapes(base: Tree, a: Ty, b: Ty)
    requires ShapeTy(a, 0) == ShapeTy(b, 0)
    ensures ShapeOf(Over(base, a), 0) == ShapeOf(Over(base, b), 0)
  {
    hide ShapeTy;
    assert ShapeArgs(Cons(TypeArg(a), Nil), 0) == Cons(Holds(ShapeTy(a, 0)), Nil);
    assert ShapeArgs(Cons(TypeArg(b), Nil), 0) == Cons(Holds(ShapeTy(b, 0)), Nil);
  }
}
