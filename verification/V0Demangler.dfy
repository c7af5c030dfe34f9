/** The demangler as the tool runs it: an object whose cursor, nesting depth and count of
    bound lifetimes are advanced and restored in place. Every method agrees with its
    function in V0Parser.dfy; on success it leaves depth and binders as it found them,
    and a back reference leaves the cursor just past itself. */
module V0Demangler {
  import opened Text
  import opened V0Parser

  datatype Got<+T> = Got(value: T) | Rejected | Unending {
    predicate IsFailure() { !Got? }
    function PropagateFailure<U>(): Got<U>
      requires IsFailure()
    {
      if Rejected? then Rejected else Unending
    }
    function Extract(): T
      requires Got?
    {
      value
    }
  }

  /** The method's outcome and final cursor are what the function says. */
  predicate Agrees<T(==)>(r: Got<T>, pos: nat, spec: Res<T>) {
    match spec
    case Ok(v, q) => r == Got(v) && pos == q
    case Bad => r == Rejected
    case Endless => r == Unending
  }

  function Prepend(parts: seq<string>, r: Res<seq<string>>): Res<seq<string>> {
    if r.Ok? then Ok(parts + r.value, r.pos) else r
  }

  lemma PrependNothing(r: Res<seq<string>>)
    ensures Prepend([], r) == r
  {
    assert r.Ok? ==> [] + r.value == r.value;
  }

  lemma PrependEnd(parts: seq<string>, p: nat)
    ensures Prepend(parts, Ok([], p)) == Ok(parts, p)
  {
    assert parts + [] == parts;
  }

  lemma PrependMore(parts: seq<string>, t: string, r: Res<seq<string>>)
    ensures Prepend(parts + [t], r) == Prepend(parts, Prepend([t], r))
  {
    assert r.Ok? ==> parts + [t] + r.value == parts + ([t] + r.value);
  }

  class V0 {
    const s: string
    var pos: nat
    var depth: nat
    var binders: nat

    constructor (s: string)
      ensures this.s == s && pos == 0 && depth == 0 && binders == 0
    {
      this.s := s;
      pos, depth, binders := 0, 0, 0;
    }

    predicate Ready()
      reads this
    {
      pos <= |s| && depth <= MAX_DEPTH
    }

    /** What every grammar method leaves behind. */
    twostate predicate Restored<T>(r: Got<T>)
      reads this
    {
      && pos <= |s|
      && (r.Got? ==> depth == old(depth) && binders == old(binders))
      && (!r.Got? ==> old(depth) <= depth)
    }

    method Eat(c: char) returns (eaten: bool)
      requires Ready()
      modifies this`pos
      ensures eaten == At(s, old(pos), c) && pos == old(pos) + (if eaten then 1 else 0) && Ready()
    {
      eaten := pos < |s| && s[pos] == c;
      if eaten {
        pos := pos + 1;
      }
    }

    method Base62() returns (r: Got<nat>)
      requires Ready()
      modifies this`pos
      ensures Agrees(r, pos, V0Parser.Base62(s, old(pos))) && Ready()
    {
      var digits := "";
      ghost var p := pos;
      while pos < |s| && s[pos] != '_'
        invariant p <= pos <= |s| && digits == s[p..pos]
        invariant Underscore(s, p) == Underscore(s, pos)
      {
        digits := digits + [s[pos]];
        pos := pos + 1;
      }
      if pos == |s| {
        return Rejected;
      }
      pos := pos + 1;
      if digits == "" {
        return Got(0);
      }
      var v := 0;
      for i := 0 to |digits|
        invariant forall j :: 0 <= j < i ==> IsBase62(digits[j])
        invariant v == Value62(digits[..i])
      {
        if !IsBase62(digits[i]) {
          return Rejected;
        }
        v := v * 62 + Digit62(digits[i]);
        assert digits[..i + 1][..i] == digits[..i];
      }
      assert digits[..|digits|] == digits;
      return Got(v + 1);
    }

    method Disambiguator() returns (r: Got<nat>)
      requires Ready()
      modifies this`pos
      ensures Agrees(r, pos, V0Parser.Disambiguator(s, old(pos))) && Ready()
    {
      hide V0Parser.Base62;
      var eaten := Eat('s');
      if !eaten {
        return Got(0);
      }
      var n :- Base62();
      return Got(n + 1);
    }

    /** The decimal length of a name: a leading zero alone, or all the digits there are. */
    method LengthDigits() returns (digits: string)
      requires Ready()
      modifies this`pos
      ensures pos == (if At(s, old(pos), '0') then old(pos) + 1 else DigitsEnd(s, old(pos)))
      ensures Ready() && old(pos) <= pos && digits == s[old(pos)..pos]
    {
      if pos < |s| && s[pos] == '0' {
        digits := [s[pos]];
        pos := pos + 1;
        return;
      }
      digits := "";
      ghost var a := pos;
      while pos < |s| && IsDigit(s[pos])
        invariant a <= pos <= |s| && digits == s[a..pos]
        invariant DigitsEnd(s, a) == DigitsEnd(s, pos)
      {
        digits := digits + [s[pos]];
        pos := pos + 1;
      }
    }

    method Ident() returns (r: Got<string>)
      requires Ready()
      modifies this`pos
      ensures Agrees(r, pos, V0Parser.Ident(s, old(pos))) && Ready()
    {
      hide DigitsEnd, DecValue, V0Parser.NameOfLength;
      var punycode := Eat('u');
      var digits := LengthDigits();
      if digits == "" {
        return Rejected;
      }
      r := NameOfLength(DecValue(digits), punycode);
    }

    method NameOfLength(n: nat, punycode: bool) returns (r: Got<string>)
      requires Ready()
      modifies this`pos
      ensures Agrees(r, pos, V0Parser.NameOfLength(s, old(pos), n, punycode)) && Ready()
    {
      var _ := Eat('_');
      if pos + n > |s| {
        return Rejected;
      }
      var name := s[pos..pos + n];
      pos := pos + n;
      return Got(if punycode then "punycode$" + name else name);
    }

    method Lifetime() returns (r: Got<string>)
      requires Ready()
      modifies this`pos
      ensures Agrees(r, pos, V0Parser.Lifetime(s, old(pos), binders)) && Ready()
    {
      hide V0Parser.Base62, LifetimeText;
      var idx :- Base62();
      return Got(LifetimeText(idx, binders));
    }

    /** The offset of a back reference, and the position just past it. */
    method Backref() returns (r: Got<nat>)
      requires Ready()
      modifies this`pos
      ensures Agrees(r, pos, V0Parser.Backref(s, old(pos))) && Ready()
    {
      hide V0Parser.Base62;
      var off :- Base62();
      if off >= |s| {
        return Rejected;
      }
      return Got(off);
    }

    method Path(inValue: bool) returns (r: Got<string>)
      requires Ready()
      modifies this
      ensures Agrees(r, pos, V0Parser.Path(s, old(pos), old(depth), old(binders), inValue))
      ensures Restored(r)
      decreases MAX_DEPTH - depth, 0, 0
    {
      depth := depth + 1;
      if depth > MAX_DEPTH {
        return Rejected;
      }
      r := PathBody(inValue);
      depth := depth - 1;
    }

    method PathBody(inValue: bool) returns (r: Got<string>)
      requires Ready()
      modifies this
      ensures Agrees(r, pos, V0Parser.PathBody(s, old(pos), old(depth), old(binders), inValue))
      ensures Restored(r)
      decreases MAX_DEPTH - depth, 9, 0
    {
      hide V0Parser.Path, V0Parser.Type, V0Parser.GenericArgs, V0Parser.ImplPath, V0Parser.QualifiedPath,
        V0Parser.Ident, V0Parser.Disambiguator, V0Parser.Backref, NestedText, GenericText;
      if pos == |s| {
        return Rejected;
      }
      var tag := s[pos];
      pos := pos + 1;
      if tag == 'C' {
        var _ :- Disambiguator();
        r := Ident();
      } else if tag == 'M' {
        var _ :- ImplPath();
        var t :- Type();
        return Got("<" + t + ">");
      } else if tag == 'X' {
        var _ :- ImplPath();
        r := QualifiedPath();
      } else if tag == 'Y' {
        r := QualifiedPath();
      } else if tag == 'N' {
        r := NestedPath(inValue);
      } else if tag == 'I' {
        var p :- Path(inValue);
        var args :- GenericArgs();
        return Got(GenericText(p, inValue, args));
      } else if tag == 'B' {
        var off :- Backref();
        var here := pos;
        pos := off;
        r := Path(inValue);
        pos := here;
      } else {
        return Rejected;
      }
    }

    method NestedPath(inValue: bool) returns (r: Got<string>)
      requires Ready() && 0 < pos && s[pos - 1] == 'N'
      modifies this
      ensures Agrees(r, pos, V0Parser.PathBody(s, old(pos) - 1, old(depth), old(binders), inValue))
      ensures Restored(r)
      decreases MAX_DEPTH - depth, 8, 0
    {
      hide V0Parser.Path, V0Parser.Ident, V0Parser.Disambiguator, NestedText;
      if pos == |s| {
        return Rejected;
      }
      var ns := s[pos];
      pos := pos + 1;
      var parent :- Path(inValue);
      var dis :- Disambiguator();
      var name :- Ident();
      return Got(NestedText(ns, parent, dis, name));
    }

    method ImplPath() returns (r: Got<()>)
      requires Ready()
      modifies this
      ensures Agrees(r, pos, V0Parser.ImplPath(s, old(pos), old(depth), old(binders)))
      ensures Restored(r)
      decreases MAX_DEPTH - depth, 1, 0
    {
      hide V0Parser.Path, V0Parser.Disambiguator;
      var _ :- Disambiguator();
      var _ :- Path(false);
      return Got(());
    }

    method QualifiedPath() returns (r: Got<string>)
      requires Ready()
      modifies this
      ensures Agrees(r, pos, V0Parser.QualifiedPath(s, old(pos), old(depth), old(binders)))
      ensures Restored(r)
      decreases MAX_DEPTH - depth, 1, 0
    {
      hide V0Parser.Path, V0Parser.Type;
      var t :- Type();
      var p :- Path(false);
      return Got("<" + t + " as " + p + ">");
    }

    method GenericArg() returns (r: Got<string>)
      requires Ready()
      modifies this
      ensures Agrees(r, pos, V0Parser.GenericArg(s, old(pos), old(depth), old(binders)))
      ensures Restored(r)
      decreases MAX_DEPTH - depth, 2, 0
    {
      hide V0Parser.Type, V0Parser.Const, V0Parser.Lifetime;
      var l := Eat('L');
      if l {
        r := Lifetime();
        return;
      }
      var k := Eat('K');
      if k {
        r := Const(|s|);
      } else {
        r := Type();
      }
    }

    method GenericArgs() returns (r: Got<seq<string>>)
      requires Ready()
      modifies this
      ensures Agrees(r, pos, V0Parser.GenericArgs(s, old(pos), old(depth), old(binders)))
      ensures Restored(r)
      decreases MAX_DEPTH - depth, 3, 0
    {
      hide V0Parser.GenericArg;
      var args: seq<string> := [];
      var done := Eat('E');
      ghost var p, d, b := old(pos), old(depth), old(binders);
      PrependNothing(V0Parser.GenericArgs(s, p, d, b));
      while !done
        invariant Ready() && depth == d && binders == b
        invariant done ==> V0Parser.GenericArgs(s, p, d, b) == Ok(args, pos)
        invariant !done ==> (!At(s, pos, 'E') &&
          V0Parser.GenericArgs(s, p, d, b) == Prepend(args, V0Parser.GenericArgs(s, pos, d, b)))
        decreases !done, |s| - pos
      {
        var arg :- GenericArg();
        ghost var q := pos;
        PrependMore(args, arg, V0Parser.GenericArgs(s, q, d, b));
        args := args + [arg];
        done := Eat('E');
        assert V0Parser.GenericArgs(s, p, d, b) == Prepend(args, V0Parser.GenericArgs(s, q, d, b));
        PrependEnd(args, pos);
      }
      return Got(args);
    }

    method Type() returns (r: Got<string>)
      requires Ready()
      modifies this
      ensures Agrees(r, pos, V0Parser.Type(s, old(pos), old(depth), old(binders)))
      ensures Restored(r)
      decreases MAX_DEPTH - depth, 0, 0
    {
      depth := depth + 1;
      if depth > MAX_DEPTH {
        return Rejected;
      }
      r := TypeBody();
      depth := depth - 1;
    }

    method TypeBody() returns (r: Got<string>)
      requires Ready()
      modifies this
      ensures Agrees(r, pos, V0Parser.TypeBody(s, old(pos), old(depth), old(binders)))
      ensures Restored(r)
      decreases MAX_DEPTH - depth, 9, 0
    {
      hide V0Parser.Path, V0Parser.Type, V0Parser.Types, V0Parser.Const, V0Parser.FnSig, V0Parser.DynBounds,
        V0Parser.RefType, V0Parser.Backref, TupleText;
      if pos == |s| {
        return Rejected;
      }
      var tag := s[pos];
      pos := pos + 1;
      if tag in BASIC_TYPES {
        return Got(BASIC_TYPES[tag]);
      }
      if tag == 'A' {
        var t :- Type();
        var n :- Const(|s|);
        return Got("[" + t + "; " + n + "]");
      } else if tag == 'S' {
        var t :- Type();
        return Got("[" + t + "]");
      } else if tag == 'T' {
        var parts :- Types();
        return Got(TupleText(parts));
      } else if tag == 'R' || tag == 'Q' {
        r := RefType(tag == 'Q');
      } else if tag == 'P' {
        var t :- Type();
        return Got("*const " + t);
      } else if tag == 'O' {
        var t :- Type();
        return Got("*mut " + t);
      } else if tag == 'F' {
        r := FnSig();
      } else if tag == 'D' {
        r := DynBounds();
      } else if tag == 'B' {
        var off :- Backref();
        var here := pos;
        pos := off;
        r := Type();
        pos := here;
      } else {
        pos := pos - 1;
        r := Path(false);
      }
    }

    method RefType(mutable: bool) returns (r: Got<string>)
      requires Ready()
      modifies this
      ensures Agrees(r, pos, V0Parser.RefType(s, old(pos), old(depth), old(binders), mutable))
      ensures Restored(r)
      decreases MAX_DEPTH - depth, 1, 0
    {
      hide V0Parser.Type, V0Parser.Lifetime;
      var lt := "";
      var l := Eat('L');
      if l {
        var text :- Lifetime();
        lt := text + " ";
      }
      var t :- Type();
      return Got("&" + lt + (if mutable then "mut " else "") + t);
    }

    method Types() returns (r: Got<seq<string>>)
      requires Ready()
      modifies this
      ensures Agrees(r, pos, V0Parser.Types(s, old(pos), old(depth), old(binders)))
      ensures Restored(r)
      decreases MAX_DEPTH - depth, 1, 0
    {
      hide V0Parser.Type;
      var parts: seq<string> := [];
      var done := Eat('E');
      ghost var p, d, b := old(pos), old(depth), old(binders);
      PrependNothing(V0Parser.Types(s, p, d, b));
      while !done
        invariant Ready() && depth == d && binders == b
        invariant done ==> V0Parser.Types(s, p, d, b) == Ok(parts, pos)
        invariant !done ==> (!At(s, pos, 'E') &&
          V0Parser.Types(s, p, d, b) == Prepend(parts, V0Parser.Types(s, pos, d, b)))
        decreases !done, |s| - pos
      {
        var t :- Type();
        ghost var q := pos;
        PrependMore(parts, t, V0Parser.Types(s, q, d, b));
        parts := parts + [t];
        done := Eat('E');
        assert V0Parser.Types(s, p, d, b) == Prepend(parts, V0Parser.Types(s, q, d, b));
        PrependEnd(parts, pos);
      }
      return Got(parts);
    }

    /** An optional binder: adds the lifetimes it binds. */
    method Binder() returns (r: Got<()>)
      requires Ready()
      modifies this`pos, this`binders
      ensures var spec := V0Parser.Binder(s, old(pos), old(binders));
        (spec.Ok? ==> r == Got(()) && pos == spec.pos && binders == spec.value) && (spec.Bad? ==> r == Rejected)
      ensures Ready()
    {
      hide V0Parser.Base62;
      var g := Eat('G');
      if g {
        var n :- Base62();
        binders := binders + n;
      }
      return Got(());
    }

    method Abi() returns (r: Got<string>)
      requires Ready()
      modifies this`pos
      ensures Agrees(r, pos, V0Parser.Abi(s, old(pos))) && Ready()
    {
      hide V0Parser.Ident;
      var k := Eat('K');
      if !k {
        return Got("");
      }
      var c := Eat('C');
      if c {
        return Got("extern \"C\" ");
      }
      var name :- Ident();
      return Got("extern \"" + name + "\" ");
    }

    method FnSig() returns (r: Got<string>)
      requires Ready()
      modifies this
      ensures Agrees(r, pos, V0Parser.FnSig(s, old(pos), old(depth), old(binders)))
      ensures Restored(r)
      decreases MAX_DEPTH - depth, 2, 0
    {
      hide V0Parser.Type, V0Parser.Types, V0Parser.Binder, V0Parser.Abi, FnText;
      var outer := binders;
      var _ :- Binder();
      var isUnsafe := Eat('U');
      var abi :- Abi();
      var args :- Types();
      var ret :- Type();
      binders := outer;
      return Got(FnText(isUnsafe, abi, args, ret));
    }

    method DynBounds() returns (r: Got<string>)
      requires Ready()
      modifies this
      ensures Agrees(r, pos, V0Parser.DynBounds(s, old(pos), old(depth), old(binders)))
      ensures Restored(r)
      decreases MAX_DEPTH - depth, 5, 0
    {
      hide V0Parser.DynTraits, V0Parser.Binder, V0Parser.Base62, Join, LifetimeText;
      var outer := binders;
      var _ :- Binder();
      var traits :- DynTraits();
      var l := Eat('L');
      if !l {
        return Rejected;
      }
      var idx :- Base62();
      binders := outer;
      if idx != 0 {
        traits := traits + [LifetimeText(idx, binders)];
      }
      return Got("dyn " + Join(" + ", traits));
    }

    method DynTraits() returns (r: Got<seq<string>>)
      requires Ready()
      modifies this
      ensures Agrees(r, pos, V0Parser.DynTraits(s, old(pos), old(depth), old(binders)))
      ensures Restored(r)
      decreases MAX_DEPTH - depth, 4, 0
    {
      hide V0Parser.DynTrait;
      var traits: seq<string> := [];
      var done := Eat('E');
      ghost var p, d, b := old(pos), old(depth), old(binders);
      PrependNothing(V0Parser.DynTraits(s, p, d, b));
      while !done
        invariant Ready() && depth == d && binders == b
        invariant done ==> V0Parser.DynTraits(s, p, d, b) == Ok(traits, pos)
        invariant !done ==> (!At(s, pos, 'E') &&
          V0Parser.DynTraits(s, p, d, b) == Prepend(traits, V0Parser.DynTraits(s, pos, d, b)))
        decreases !done, |s| - pos
      {
        var t :- DynTrait();
        ghost var q := pos;
        PrependMore(traits, t, V0Parser.DynTraits(s, q, d, b));
        traits := traits + [t];
        done := Eat('E');
        assert V0Parser.DynTraits(s, p, d, b) == Prepend(traits, V0Parser.DynTraits(s, q, d, b));
        PrependEnd(traits, pos);
      }
      return Got(traits);
    }

    method DynTrait() returns (r: Got<string>)
      requires Ready()
      modifies this
      ensures Agrees(r, pos, V0Parser.DynTrait(s, old(pos), old(depth), old(binders)))
      ensures Restored(r)
      decreases MAX_DEPTH - depth, 3, 0
    {
      hide V0Parser.Path, V0Parser.Bindings, TraitText;
      var p :- Path(false);
      var bindings :- Bindings();
      return Got(TraitText(p, bindings));
    }

    method Bindings() returns (r: Got<seq<string>>)
      requires Ready()
      modifies this
      ensures Agrees(r, pos, V0Parser.Bindings(s, old(pos), old(depth), old(binders)))
      ensures Restored(r)
      decreases MAX_DEPTH - depth, 1, 0
    {
      hide V0Parser.Type, V0Parser.Ident;
      var bindings: seq<string> := [];
      ghost var p, d, b := old(pos), old(depth), old(binders);
      PrependNothing(V0Parser.Bindings(s, p, d, b));
      var more := Eat('p');
      while more
        invariant Ready() && depth == d && binders == b
        invariant !more ==> V0Parser.Bindings(s, p, d, b) == Ok(bindings, pos)
        invariant more ==> (pos > 0 && At(s, pos - 1, 'p') &&
          V0Parser.Bindings(s, p, d, b) == Prepend(bindings, V0Parser.Bindings(s, pos - 1, d, b)))
        decreases more, |s| - pos
      {
        var name :- Ident();
        var t :- Type();
        ghost var q := pos;
        PrependMore(bindings, name + " = " + t, V0Parser.Bindings(s, q, d, b));
        bindings := bindings + [name + " = " + t];
        more := Eat('p');
        assert V0Parser.Bindings(s, p, d, b) == Prepend(bindings, V0Parser.Bindings(s, q, d, b));
        PrependEnd(bindings, pos);
      }
      return Got(bindings);
    }

    method Const(fuel: nat) returns (r: Got<string>)
      requires Ready()
      modifies this
      ensures Agrees(r, pos, V0Parser.Const(s, old(pos), old(depth), old(binders), fuel))
      ensures Restored(r)
      decreases MAX_DEPTH - depth, 1, fuel
    {
      hide V0Parser.Type, V0Parser.Backref, V0Parser.ConstData;
      var ref := Eat('B');
      if ref {
        var off :- Backref();
        if fuel == 0 {
          return Unending;
        }
        var here := pos;
        pos := off;
        r := Const(fuel - 1);
        pos := here;
        return;
      }
      var hole := Eat('p');
      if hole {
        return Got("_");
      }
      var ty :- Type();
      r := ConstData(ty);
    }

    method ConstData(ty: string) returns (r: Got<string>)
      requires Ready()
      modifies this`pos
      ensures Agrees(r, pos, V0Parser.ConstData(s, old(pos), ty)) && Ready()
    {
      hide ConstText;
      var neg := Eat('n');
      var digits := "";
      ghost var a := pos;
      while pos < |s| && s[pos] != '_'
        invariant a <= pos <= |s| && digits == s[a..pos]
        invariant Underscore(s, a) == Underscore(s, pos)
      {
        digits := digits + [s[pos]];
        pos := pos + 1;
      }
      if pos == |s| {
        return Rejected;
      }
      ghost var z := Underscore(s, a);
      assert pos == z && digits == s[a..z];
      pos := pos + 1;
      if AllHex(digits) {
        return Got(ConstText(ty, neg, digits));
      }
      return Rejected;
    }
  }

  /** `demangle_v0` of a symbol without its `_R`. */
  method DemangleV0(sym: string) returns (r: Got<string>)
    ensures match Demangle(sym)
      case Ok(t, _) => r == Got(t)
      case Bad => r == Rejected
      case Endless => r == Unending
  {
    hide V0Parser.Path;
    var p := new V0(sym);
    while p.pos < |sym| && IsDigit(sym[p.pos])
      invariant p.pos <= |sym| && p.depth == 0 && p.binders == 0 && p.s == sym
      invariant DigitsEnd(sym, 0) == DigitsEnd(sym, p.pos)
    {
      p.pos := p.pos + 1;
    }
    r := p.Path(true);
  }
}
