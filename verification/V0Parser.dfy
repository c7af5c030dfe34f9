/** The v0 demangler as functions of the mangled string, the cursor, the nesting depth
    and the number of bound lifetimes. Back references re-enter the same string at an
    absolute offset. The class in V0Demangler.dfy is proved to compute these. */
module V0Parser {
  import opened Text

  /** `Bad` is a rejected symbol. `Endless` is a chain of constant back references that
      never ends: the one recursion the depth guard does not stop. */
  datatype Res<+T> = Ok(value: T, pos: nat) | Bad | Endless {
    predicate IsFailure() { !Ok? }
    function PropagateFailure<U>(): Res<U>
      requires IsFailure()
    {
      if Bad? then Bad else Endless
    }
    function Extract(): (T, nat)
      requires Ok?
    {
      (value, pos)
    }
  }

  const MAX_DEPTH: nat := 300

  // ---- primitives --------------------------------------------------------

  predicate At(s: string, p: nat, c: char) {
    p < |s| && s[p] == c
  }

  predicate IsLower(c: char) { 'a' <= c <= 'z' }

  predicate IsUpper(c: char) { 'A' <= c <= 'Z' }

  predicate IsBase62(c: char) {
    IsDigit(c) || IsLower(c) || IsUpper(c)
  }

  function Digit62(c: char): nat
    requires IsBase62(c)
  {
    if IsDigit(c) then c as int - '0' as int
    else if IsLower(c) then c as int - 'a' as int + 10
    else c as int - 'A' as int + 36
  }

  function Value62(digits: string): nat
    requires forall i :: 0 <= i < |digits| ==> IsBase62(digits[i])
  {
    if digits == [] then 0
    else Value62(digits[..|digits| - 1]) * 62 + Digit62(digits[|digits| - 1])
  }

  /** The position of the first underscore at or after p, or the length. */
  function Underscore(s: string, p: nat): (q: nat)
    requires p <= |s|
    ensures p <= q <= |s| && (forall i :: p <= i < q ==> s[i] != '_') && (q < |s| ==> s[q] == '_')
    decreases |s| - p
  {
    if p == |s| || s[p] == '_' then p else Underscore(s, p + 1)
  }

  /** Digits up to an underscore: empty is 0, otherwise the value plus one. */
  function Base62(s: string, p: nat): (r: Res<nat>)
    requires p <= |s|
    ensures r.Ok? ==> p < r.pos <= |s|
    ensures !r.Endless?
  {
    var q := Underscore(s, p);
    if q == |s| then Bad
    else if q == p then Ok(0, q + 1)
    else if forall i :: 0 <= i < q - p ==> IsBase62(s[p..q][i]) then Ok(Value62(s[p..q]) + 1, q + 1)
    else Bad
  }

  function Disambiguator(s: string, p: nat): (r: Res<nat>)
    requires p <= |s|
    ensures r.Ok? ==> p <= r.pos <= |s|
    ensures !r.Endless?
  {
    if At(s, p, 's') then
      var (n, q) :- Base62(s, p + 1);
      Ok(n + 1, q)
    else Ok(0, p)
  }

  /** The end of the run of decimal digits at p. */
  function DigitsEnd(s: string, p: nat): (q: nat)
    requires p <= |s|
    ensures p <= q <= |s| && AllDigits(s[p..q]) && (q < |s| ==> !IsDigit(s[q]))
    decreases |s| - p
  {
    if p == |s| || !IsDigit(s[p]) then p
    else
      var q := DigitsEnd(s, p + 1);
      assert s[p..q] == [s[p]] + s[p + 1..q];
      q
  }

  /** A length-prefixed name. A leading zero is the whole length; one underscore may
      separate the length from the name. */
  function Ident(s: string, p: nat): (r: Res<string>)
    requires p <= |s|
    ensures r.Ok? ==> p < r.pos <= |s|
    ensures !r.Endless?
  {
    var puny := At(s, p, 'u');
    var a := if puny then p + 1 else p;
    var b := if At(s, a, '0') then a + 1 else DigitsEnd(s, a);
    if a == b then Bad
    else
      assert AllDigits(s[a..b]);
      NameOfLength(s, b, DecValue(s[a..b]), puny)
  }

  /** The n characters of a name, after an optional underscore. */
  function NameOfLength(s: string, p: nat, n: nat, puny: bool): (r: Res<string>)
    requires p <= |s|
    ensures r.Ok? ==> p <= r.pos <= |s|
    ensures !r.Endless?
  {
    var c := if At(s, p, '_') then p + 1 else p;
    if c + n > |s| then Bad
    else Ok(if puny then "punycode$" + s[c..c + n] else s[c..c + n], c + n)
  }

  // ---- texts -------------------------------------------------------------

  function IntText(n: int): string {
    if n < 0 then "-" + Dec(-n) else Dec(n)
  }

  function LifetimeText(idx: nat, binders: nat): string {
    if idx == 0 then "'_"
    else
      var depth := binders - idx;
      if 0 <= depth < 26 then ['\'', 'a' + depth as char] else "'_" + IntText(depth)
  }

  function Join(sep: string, parts: seq<string>): string {
    if parts == [] then ""
    else if |parts| == 1 then parts[0]
    else parts[0] + sep + Join(sep, parts[1..])
  }

  const BASIC_TYPES: map<char, string> := map[
    'a' := "i8", 'b' := "bool", 'c' := "char", 'd' := "f64", 'e' := "str", 'f' := "f32",
    'h' := "u8", 'i' := "isize", 'j' := "usize", 'l' := "i32", 'm' := "u32", 'n' := "i128",
    'o' := "u128", 's' := "i16", 't' := "u16", 'u' := "()", 'v' := "...", 'x' := "i64",
    'y' := "u64", 'z' := "!", 'p' := "_"]

  function NestedText(ns: char, parent: string, dis: nat, name: string): string {
    if IsUpper(ns) then
      var kind := if ns == 'C' then "closure" else if ns == 'S' then "shim" else [ns];
      parent + "::{" + (if name == "" then kind else kind + ":" + name) + "#" + Dec(dis) + "}"
    else parent + "::" + name
  }

  function GenericText(base: string, inValue: bool, args: seq<string>): string {
    base + (if inValue then "::" else "") + "<" + Join(", ", args) + ">"
  }

  function TupleText(parts: seq<string>): string {
    if |parts| == 1 then "(" + parts[0] + ",)" else "(" + Join(", ", parts) + ")"
  }

  function FnText(isUnsafe: bool, abi: string, args: seq<string>, ret: string): string {
    (if isUnsafe then "unsafe " else "") + abi + "fn(" + Join(", ", args) + ")"
    + (if ret == "()" then "" else " -> " + ret)
  }

  function TraitText(path: string, bindings: seq<string>): string {
    if bindings == [] then path
    else if path != "" && path[|path| - 1] == '>' then
      path[..|path| - 1] + ", " + Join(", ", bindings) + ">"
    else path + "<" + Join(", ", bindings) + ">"
  }

  predicate IsHex(c: char) {
    IsDigit(c) || 'a' <= c <= 'f' || 'A' <= c <= 'F'
  }

  predicate AllHex(s: string) {
    forall i :: 0 <= i < |s| ==> IsHex(s[i])
  }

  function HexValue(s: string): nat
    requires AllHex(s)
  {
    if s == [] then 0
    else
      var c := s[|s| - 1];
      assert IsHex(s[|s| - 1]);
      var d := if IsDigit(c) then c as int - '0' as int
               else if IsLower(c) then c as int - 'a' as int + 10
               else c as int - 'A' as int + 10;
      HexValue(s[..|s| - 1]) * 16 + d
  }

  function ConstText(ty: string, neg: bool, hex: string): string
    requires AllHex(hex)
  {
    if hex == "" then "0"
    else
      var v := HexValue(hex);
      if ty == "bool" then (if v != 0 then "true" else "false")
      else if ty == "char" then "'\\u{" + hex + "}'"
      else if neg then "-" + Dec(v) else Dec(v)
  }

  // ---- grammar -----------------------------------------------------------

  /** Where a back reference leads: the offset, and the position after the reference. */
  function Backref(s: string, p: nat): (r: Res<nat>)
    requires p <= |s|
    ensures r.Ok? ==> p < r.pos <= |s| && r.value < |s|
    ensures !r.Endless?
  {
    var (off, q) :- Base62(s, p);
    if off >= |s| then Bad else Ok(off, q)
  }

  function Path(s: string, p: nat, d: nat, b: nat, v: bool): (r: Res<string>)
    requires p <= |s| && d <= MAX_DEPTH
    ensures r.Ok? ==> p < r.pos <= |s|
    decreases MAX_DEPTH - d, 0, 0
  {
    if d + 1 > MAX_DEPTH then Bad else PathBody(s, p, d + 1, b, v)
  }

  function PathBody(s: string, p: nat, d: nat, b: nat, v: bool): (r: Res<string>)
    requires p <= |s| && d <= MAX_DEPTH
    ensures r.Ok? ==> p < r.pos <= |s|
    decreases MAX_DEPTH - d, 9, 0
  {
    if p == |s| then Bad
    else if s[p] == 'C' then
      var (_, q) :- Disambiguator(s, p + 1);
      Ident(s, q)
    else if s[p] == 'M' then
      var (_, q) :- ImplPath(s, p + 1, d, b);
      var (t, q2) :- Type(s, q, d, b);
      Ok("<" + t + ">", q2)
    else if s[p] == 'X' then
      var (_, q) :- ImplPath(s, p + 1, d, b);
      QualifiedPath(s, q, d, b)
    else if s[p] == 'Y' then QualifiedPath(s, p + 1, d, b)
    else if s[p] == 'N' then
      if p + 1 == |s| then Bad
      else
        var (parent, q) :- Path(s, p + 2, d, b, v);
        var (dis, q2) :- Disambiguator(s, q);
        var (name, q3) :- Ident(s, q2);
        Ok(NestedText(s[p + 1], parent, dis, name), q3)
    else if s[p] == 'I' then
      var (base, q) :- Path(s, p + 1, d, b, v);
      var (args, q2) :- GenericArgs(s, q, d, b);
      Ok(GenericText(base, v, args), q2)
    else if s[p] == 'B' then
      var (off, q) :- Backref(s, p + 1);
      var (t, _) :- Path(s, off, d, b, v);
      Ok(t, q)
    else Bad
  }

  /** Parsed and dropped: where an impl lives is not part of its name. */
  function ImplPath(s: string, p: nat, d: nat, b: nat): (r: Res<()>)
    requires p <= |s| && d <= MAX_DEPTH
    ensures r.Ok? ==> p < r.pos <= |s|
    decreases MAX_DEPTH - d, 1, 0
  {
    var (_, q) :- Disambiguator(s, p);
    var (_, q2) :- Path(s, q, d, b, false);
    Ok((), q2)
  }

  function QualifiedPath(s: string, p: nat, d: nat, b: nat): (r: Res<string>)
    requires p <= |s| && d <= MAX_DEPTH
    ensures r.Ok? ==> p < r.pos <= |s|
    decreases MAX_DEPTH - d, 1, 0
  {
    var (t, q) :- Type(s, p, d, b);
    var (tr, q2) :- Path(s, q, d, b, false);
    Ok("<" + t + " as " + tr + ">", q2)
  }

  function Lifetime(s: string, p: nat, b: nat): (r: Res<string>)
    requires p <= |s|
    ensures r.Ok? ==> p < r.pos <= |s|
    ensures !r.Endless?
  {
    var (idx, q) :- Base62(s, p);
    Ok(LifetimeText(idx, b), q)
  }

  function GenericArg(s: string, p: nat, d: nat, b: nat): (r: Res<string>)
    requires p <= |s| && d <= MAX_DEPTH
    ensures r.Ok? ==> p < r.pos <= |s|
    decreases MAX_DEPTH - d, 2, 0
  {
    if At(s, p, 'L') then Lifetime(s, p + 1, b)
    else if At(s, p, 'K') then Const(s, p + 1, d, b, |s|)
    else Type(s, p, d, b)
  }

  /** Arguments up to the closing `E`. */
  function GenericArgs(s: string, p: nat, d: nat, b: nat): (r: Res<seq<string>>)
    requires p <= |s| && d <= MAX_DEPTH
    ensures r.Ok? ==> p < r.pos <= |s|
    decreases MAX_DEPTH - d, 3, |s| - p
  {
    if At(s, p, 'E') then Ok([], p + 1)
    else
      var (arg, q) :- GenericArg(s, p, d, b);
      var (args, q2) :- GenericArgs(s, q, d, b);
      Ok([arg] + args, q2)
  }

  function Type(s: string, p: nat, d: nat, b: nat): (r: Res<string>)
    requires p <= |s| && d <= MAX_DEPTH
    ensures r.Ok? ==> p < r.pos <= |s|
    decreases MAX_DEPTH - d, 0, 0
  {
    if d + 1 > MAX_DEPTH then Bad else TypeBody(s, p, d + 1, b)
  }

  function TypeBody(s: string, p: nat, d: nat, b: nat): (r: Res<string>)
    requires p <= |s| && d <= MAX_DEPTH
    ensures r.Ok? ==> p < r.pos <= |s|
    decreases MAX_DEPTH - d, 9, 0
  {
    if p == |s| then Bad
    else if s[p] in BASIC_TYPES then Ok(BASIC_TYPES[s[p]], p + 1)
    else if s[p] == 'A' then
      var (t, q) :- Type(s, p + 1, d, b);
      var (n, q2) :- Const(s, q, d, b, |s|);
      Ok("[" + t + "; " + n + "]", q2)
    else if s[p] == 'S' then
      var (t, q) :- Type(s, p + 1, d, b);
      Ok("[" + t + "]", q)
    else if s[p] == 'T' then
      var (ts, q) :- Types(s, p + 1, d, b);
      Ok(TupleText(ts), q)
    else if s[p] == 'R' || s[p] == 'Q' then RefType(s, p + 1, d, b, s[p] == 'Q')
    else if s[p] == 'P' then
      var (t, q) :- Type(s, p + 1, d, b);
      Ok("*const " + t, q)
    else if s[p] == 'O' then
      var (t, q) :- Type(s, p + 1, d, b);
      Ok("*mut " + t, q)
    else if s[p] == 'F' then FnSig(s, p + 1, d, b)
    else if s[p] == 'D' then DynBounds(s, p + 1, d, b)
    else if s[p] == 'B' then
      var (off, q) :- Backref(s, p + 1);
      var (t, _) :- Type(s, off, d, b);
      Ok(t, q)
    else Path(s, p, d, b, false)
  }

  function RefType(s: string, p: nat, d: nat, b: nat, mutable: bool): (r: Res<string>)
    requires p <= |s| && d <= MAX_DEPTH
    ensures r.Ok? ==> p < r.pos <= |s|
    decreases MAX_DEPTH - d, 1, 0
  {
    var (lt, q) :- if At(s, p, 'L') then
                     var (l, q) :- Lifetime(s, p + 1, b);
                     Ok(l + " ", q)
                   else Ok("", p);
    var (t, q2) :- Type(s, q, d, b);
    Ok("&" + lt + (if mutable then "mut " else "") + t, q2)
  }

  /** Types up to the closing `E`. */
  function Types(s: string, p: nat, d: nat, b: nat): (r: Res<seq<string>>)
    requires p <= |s| && d <= MAX_DEPTH
    ensures r.Ok? ==> p < r.pos <= |s|
    decreases MAX_DEPTH - d, 1, |s| - p
  {
    if At(s, p, 'E') then Ok([], p + 1)
    else
      var (t, q) :- Type(s, p, d, b);
      var (ts, q2) :- Types(s, q, d, b);
      Ok([t] + ts, q2)
  }

  /** An optional binder: the number of lifetimes bound from here on. */
  function Binder(s: string, p: nat, b: nat): (r: Res<nat>)
    requires p <= |s|
    ensures r.Ok? ==> p <= r.pos <= |s|
    ensures !r.Endless?
  {
    if At(s, p, 'G') then
      var (n, q) :- Base62(s, p + 1);
      Ok(b + n, q)
    else Ok(b, p)
  }

  function Abi(s: string, p: nat): (r: Res<string>)
    requires p <= |s|
    ensures r.Ok? ==> p <= r.pos <= |s|
    ensures !r.Endless?
  {
    if !At(s, p, 'K') then Ok("", p)
    else if At(s, p + 1, 'C') then Ok("extern \"C\" ", p + 2)
    else
      var (name, q) :- Ident(s, p + 1);
      Ok("extern \"" + name + "\" ", q)
  }

  function FnSig(s: string, p: nat, d: nat, b: nat): (r: Res<string>)
    requires p <= |s| && d <= MAX_DEPTH
    ensures r.Ok? ==> p < r.pos <= |s|
    decreases MAX_DEPTH - d, 2, 0
  {
    var (inner, q) :- Binder(s, p, b);
    var isUnsafe := At(s, q, 'U');
    var (abi, q2) :- Abi(s, if isUnsafe then q + 1 else q);
    var (args, q3) :- Types(s, q2, d, inner);
    var (ret, q4) :- Type(s, q3, d, inner);
    Ok(FnText(isUnsafe, abi, args, ret), q4)
  }

  function DynBounds(s: string, p: nat, d: nat, b: nat): (r: Res<string>)
    requires p <= |s| && d <= MAX_DEPTH
    ensures r.Ok? ==> p < r.pos <= |s|
    decreases MAX_DEPTH - d, 5, 0
  {
    var (inner, q) :- Binder(s, p, b);
    var (traits, q2) :- DynTraits(s, q, d, inner);
    if !At(s, q2, 'L') then Bad
    else
      var (idx, q3) :- Base62(s, q2 + 1);
      var all := if idx != 0 then traits + [LifetimeText(idx, b)] else traits;
      Ok("dyn " + Join(" + ", all), q3)
  }

  /** Trait bounds up to the closing `E`. */
  function DynTraits(s: string, p: nat, d: nat, b: nat): (r: Res<seq<string>>)
    requires p <= |s| && d <= MAX_DEPTH
    ensures r.Ok? ==> p < r.pos <= |s|
    decreases MAX_DEPTH - d, 4, |s| - p
  {
    if At(s, p, 'E') then Ok([], p + 1)
    else
      var (t, q) :- DynTrait(s, p, d, b);
      var (ts, q2) :- DynTraits(s, q, d, b);
      Ok([t] + ts, q2)
  }

  function DynTrait(s: string, p: nat, d: nat, b: nat): (r: Res<string>)
    requires p <= |s| && d <= MAX_DEPTH
    ensures r.Ok? ==> p < r.pos <= |s|
    decreases MAX_DEPTH - d, 3, 0
  {
    var (path, q) :- Path(s, p, d, b, false);
    var (bindings, q2) :- Bindings(s, q, d, b);
    Ok(TraitText(path, bindings), q2)
  }

  /** Associated-type bindings, each introduced by `p`. */
  function Bindings(s: string, p: nat, d: nat, b: nat): (r: Res<seq<string>>)
    requires p <= |s| && d <= MAX_DEPTH
    ensures r.Ok? ==> p <= r.pos <= |s|
    decreases MAX_DEPTH - d, 1, |s| - p
  {
    if !At(s, p, 'p') then Ok([], p)
    else
      var (name, q) :- Ident(s, p + 1);
      var (t, q2) :- Type(s, q, d, b);
      var (rest, q3) :- Bindings(s, q2, d, b);
      Ok([name + " = " + t] + rest, q3)
  }

  /** A constant. `fuel` bounds the chain of constant back references. */
  function Const(s: string, p: nat, d: nat, b: nat, fuel: nat): (r: Res<string>)
    requires p <= |s| && d <= MAX_DEPTH
    ensures r.Ok? ==> p < r.pos <= |s|
    decreases MAX_DEPTH - d, 1, fuel
  {
    if At(s, p, 'B') then
      var (off, q) :- Backref(s, p + 1);
      if fuel == 0 then Endless
      else
        var (t, _) :- Const(s, off, d, b, fuel - 1);
        Ok(t, q)
    else if At(s, p, 'p') then Ok("_", p + 1)
    else
      var (ty, q) :- Type(s, p, d, b);
      ConstData(s, q, ty)
  }

  function ConstData(s: string, p: nat, ty: string): (r: Res<string>)
    requires p <= |s|
    ensures r.Ok? ==> p < r.pos <= |s|
    ensures !r.Endless?
  {
    var neg := At(s, p, 'n');
    var a := if neg then p + 1 else p;
    var z := Underscore(s, a);
    if z == |s| then Bad
    else if AllHex(s[a..z]) then
      Ok(ConstText(ty, neg, s[a..z]), z + 1)
    else Bad
  }

  /** `demangle_v0` of a symbol with its `_R` removed: version digits, then one path. */
  function Demangle(s: string): (r: Res<string>) {
    Path(s, DigitsEnd(s, 0), 0, 0, true)
  }
}
