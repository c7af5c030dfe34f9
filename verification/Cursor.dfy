/** The kernel's normalizing scanner and the name comparison built on it. */
module Cursor {
  import opened CanonicalOrder
  import opened Normalizer
  import opened ClassPasses
  import U = Utf8
  import T = Blob
  import B = BlobLookup

  /** A position inside an expansion (from the pool or a Hangul syllable's jamo). */
  datatype Exp = NoExp | InExp(chars: seq<Cp>, idx: nat)

  ghost predicate AtExp(e: Exp) {
    e.InExp? ==> e.idx <= |e.chars|
  }

  /** The items a scan at position pos, inside expansion e, has ahead of it. */
  ghost function Ahead(db: Db, s: seq<Cp>, pos: nat, e: Exp): seq<Item>
    requires pos <= |s| && AtExp(e)
  {
    (if e.NoExp? then [] else Items(e.chars[e.idx..])) + Flatten(db, s[pos..])
  }

  lemma AheadPlain(db: Db, s: seq<Cp>, pos: nat)
    requires pos < |s|
    ensures Ahead(db, s, pos, NoExp) ==
      (if s[pos] in db.di then [Break] else Items(Expand(db, s[pos]))) + Ahead(db, s, pos + 1, NoExp)
  {
    assert s[pos..][1..] == s[pos + 1..];
  }

  lemma AheadExpanded(db: Db, s: seq<Cp>, pos: nat, chars: seq<Cp>)
    requires pos <= |s|
    ensures Ahead(db, s, pos, InExp(chars, 0)) == Items(chars) + Ahead(db, s, pos, NoExp)
    ensures Ahead(db, s, pos, InExp(chars, |chars|)) == Ahead(db, s, pos, NoExp)
  {
    assert chars[0..] == chars;
  }

  lemma AheadIgnorable(db: Db, s: seq<Cp>, pos: nat)
    requires pos < |s| && s[pos] in db.di
    ensures Ahead(db, s, pos, NoExp) == [Break] + Ahead(db, s, pos + 1, NoExp)
  {
    hide Ahead;
    AheadPlain(db, s, pos);
  }

  lemma EntersExpansion(db: Db, s: seq<Cp>, pos: nat, chars: seq<Cp>)
    requires pos < |s| && s[pos] !in db.di && Expand(db, s[pos]) == chars
    ensures Ahead(db, s, pos + 1, InExp(chars, 0)) == Ahead(db, s, pos, NoExp)
  {
    hide Ahead, Expand;
    AheadPlain(db, s, pos);
    AheadExpanded(db, s, pos + 1, chars);
  }

  lemma StandsForItself(db: Db, s: seq<Cp>, pos: nat)
    requires pos < |s| && s[pos] !in db.di && !IsSyllable(s[pos]) && s[pos] !in db.table
    ensures Ahead(db, s, pos, NoExp) == [Char(s[pos])] + Ahead(db, s, pos + 1, NoExp)
  {
    hide Ahead;
    AheadPlain(db, s, pos);
    assert Items([s[pos]]) == [Char(s[pos])];
  }

  lemma ExpandSyllable(db: Db, cp: Cp)
    requires cp !in db.di && IsSyllable(cp)
    ensures Expand(db, cp) == HangulDecompose(cp)
  {
    hide HangulDecompose;
  }

  lemma ExpandListed(db: Db, cp: Cp)
    requires cp !in db.di && !IsSyllable(cp) && cp in db.table
    ensures Expand(db, cp) == db.table[cp]
  {
  }

  lemma AtIgnorable(ccc: Classes, ahead: seq<Item>, rest: seq<Item>)
    requires ahead == [Break] + rest
    ensures Stops(ccc, ahead)
  {
  }

  lemma AheadInside(db: Db, s: seq<Cp>, pos: nat, chars: seq<Cp>, idx: nat)
    requires pos <= |s| && idx < |chars|
    ensures Ahead(db, s, pos, InExp(chars, idx)) == [Char(chars[idx])] + Ahead(db, s, pos, InExp(chars, idx + 1))
  {
    assert Items(chars[idx..]) == [Char(chars[idx])] + Items(chars[idx + 1..]);
  }

  // ---- progress ----------------------------------------------------------

  /** How far a scan has to go: the input from the start of the run, the kind of pass, the
      classes above the one being emitted, the items ahead, and the raw position. */
  datatype Rank = Rank(before: nat, phase: nat, classes: nat, ahead: nat, input: nat)

  ghost predicate Less(a: Rank, b: Rank) {
    a.before < b.before ||
    (a.before == b.before &&
     (a.phase < b.phase ||
      (a.phase == b.phase &&
       (a.classes < b.classes ||
        (a.classes == b.classes &&
         (a.ahead < b.ahead || (a.ahead == b.ahead && a.input < b.input)))))))
  }

  ghost function RankOf(v: View, input: nat): Rank
    requires v.cls <= MAXCCC
  {
    Rank(|v.start|, if v.cls == STOPPER then 2 else if v.cls < 0 then 1 else 0, NO_MORE - v.cls, |v.ahead|, input)
  }

  /** The view after the character under the cursor is emitted. */
  ghost function Emitted(v: View, c: Cp, rest: seq<Item>): View {
    if v.cls == STOPPER then View(rest, rest, v.done, v.cls, v.next, v.cut)
    else View(rest, v.start, v.done + [c], v.cls, v.next, v.cut)
  }

  lemma EmitKeeps(ccc: Classes, v: View, c: Cp, rest: seq<Item>)
    requires Good(ccc, v) && v.ahead == [Char(c)] + rest && ClassOf(ccc, c) == v.cls
    ensures Good(ccc, Emitted(v, c, rest)) && Left(ccc, v) == [c] + Left(ccc, Emitted(v, c, rest))
  {
    hide Yield, Emitting;
    if v.cls == STOPPER {
      IdleStarter(ccc, Char(c), rest, v.cut);
    } else {
      EmitMark(ccc, v, c, rest);
    }
  }

  /** The view after a mark of another class is passed over. */
  ghost function Passed(ccc: Classes, v: View, c: Cp, rest: seq<Item>): View {
    if v.cls == STOPPER then View(rest, v.ahead, [c], PRESCAN, ClassOf(ccc, c), v.cut)
    else View(rest, v.start, v.done + [c], v.cls, Noted(v.cls, v.next, ClassOf(ccc, c)), v.cut)
  }

  lemma PassKeeps(ccc: Classes, v: View, c: Cp, rest: seq<Item>)
    requires ByteClasses(ccc) && Good(ccc, v) && v.ahead == [Char(c)] + rest
    requires IsMark(ccc, c) && ClassOf(ccc, c) != v.cls
    requires v.cls == STOPPER ==> v.start == v.ahead
    ensures Good(ccc, Passed(ccc, v, c, rest)) && Left(ccc, v) == Left(ccc, Passed(ccc, v, c, rest))
    ensures forall m, n :: Less(RankOf(Passed(ccc, v, c, rest), m), RankOf(v, n))
  {
    hide Yield, Emitting;
    if v.cls == STOPPER {
      EnterRun(ccc, v, c, rest);
    } else {
      PassMark(ccc, v, c, rest);
    }
  }

  /** The view after a pass has come to the end of its run. */
  ghost function Turned(v: View, ahead: seq<Item>): View {
    if v.next != NO_MORE then View(v.start, v.start, [], v.next, NO_MORE, v.cut)
    else View(ahead, ahead, v.done, STOPPER, STOPPER, v.cut)
  }

  lemma TurnKeeps(ccc: Classes, v: View, ahead: seq<Item>)
    requires Scanning(ccc, v) && Stops(ccc, v.ahead) && (v.cut ==> v.ahead != [])
    requires ahead == v.ahead || v.ahead == [Break] + ahead
    ensures Good(ccc, Turned(v, ahead)) && Left(ccc, Turned(v, ahead)) == Left(ccc, v)
    ensures forall m, n :: Less(RankOf(Turned(v, ahead), m), RankOf(v, n))
  {
    hide Yield, Emitting;
    if v.next != NO_MORE {
      NextPass(ccc, v);
    } else {
      LastPass(ccc, v);
      if v.ahead == [Break] + ahead {
        IdleStarter(ccc, Break, ahead, v.cut);
      }
    }
  }

  /** What a step of the scan gives: a code point, the end of the name, or the place where
      the name is malformed. */
  datatype Step = End | Malformed | Next(cp: Cp)

  /** A table the kernel has opened, and what is behind it: the rows it was made of, the
      data they were made from, and the reference reader's view of that data. */
  datatype Table = Table(sections: T.Opened, form: B.Form)

  ghost predicate Stands(tab: Table, t: T.Tables, d: B.Data, db: Db) {
    B.Serves(tab.sections, tab.form, t, d, db)
  }

  class Scanner {
    const tab: Table
    ghost const rows: T.Tables
    ghost const data: B.Data
    /** The reference reader's view of the table. */
    ghost const db: Db
    const s: seq<Cp>
    /** Whether what follows s in the name does not decode. */
    const cut: bool
    var pos: nat
    var exp: Exp
    /** Where the run being sorted starts; meaningful while one is. */
    var savedPos: nat
    var savedExp: Exp
    var ccc: int
    var nccc: int
    /** The marks between the saved and the current position. */
    ghost var done: seq<Cp>

    ghost predicate InBounds()
      reads this
    {
      pos <= |s| && AtExp(exp) && savedPos <= |s| && AtExp(savedExp)
    }

    ghost function Now(): seq<Item>
      reads this
      requires InBounds()
    {
      Ahead(db, s, pos, exp)
    }

    ghost function Look(): View
      reads this
      requires InBounds()
    {
      View(Now(), if ccc == STOPPER then Now() else Ahead(db, s, savedPos, savedExp), done, ccc, nccc, cut)
    }

    ghost predicate Valid()
      reads this
    {
      InBounds() && Stands(tab, rows, data, db) && ccc <= MAXCCC && Good(db.ccc, Look())
    }

    /** The code points still to come. */
    ghost function Rest(): seq<Cp>
      reads this
      requires InBounds()
    {
      Left(db.ccc, Look())
    }

    ghost function Input(): nat
      reads this
      requires InBounds()
    {
      2 * (|s| - pos) + if exp.InExp? then 1 else 0
    }

    ghost function Measure(): Rank
      reads this
      requires InBounds() && ccc <= MAXCCC
    {
      RankOf(Look(), Input())
    }

    constructor (tab: Table, s: seq<Cp>, cut: bool, ghost rows: T.Tables, ghost data: B.Data, ghost db: Db)
      requires Stands(tab, rows, data, db)
      ensures Valid() && this.db == db && this.s == s && this.cut == cut
      ensures Rest() == Yield(db.ccc, Flatten(db, s), cut)
    {
      hide Stands;
      this.tab, this.s, this.cut, this.rows, this.data, this.db := tab, s, cut, rows, data, db;
      pos, exp, savedPos, savedExp := 0, NoExp, 0, NoExp;
      ccc, nccc, done := STOPPER, STOPPER, [];
      new;
      assert s[0..] == s;
      assert [] + Flatten(db, s) == Flatten(db, s);
    }

    /** Drop a fully consumed expansion so the scan resumes in the input. */
    method PopFinishedExpansion() returns (finished: bool)
      requires InBounds()
      modifies `exp
      ensures InBounds() && Look() == old(Look())
      ensures finished ==> old(exp).InExp? && exp == NoExp
      ensures !finished ==> exp == old(exp) && OnChar()
    {
      finished := exp.InExp? && exp.idx == |exp.chars|;
      if finished {
        AheadExpanded(db, s, pos, exp.chars);
        exp := NoExp;
      }
    }

    /** Inside an expansion, there is a character under the cursor. */
    ghost predicate OnChar()
      reads this
    {
      exp.InExp? ==> exp.idx < |exp.chars|
    }

    /** The code point under the cursor. */
    method Peek() returns (r: Step)
      requires InBounds() && OnChar()
      ensures !r.Next? ==> Now() == [] && (r.Malformed? <==> cut)
      ensures r.Next? && exp.NoExp? ==> pos < |s| && r.cp == s[pos]
      ensures r.Next? && exp.InExp? ==> r.cp == exp.chars[exp.idx] && Now() == [Char(r.cp)] + Behind()
    {
      if exp.InExp? {
        AheadInside(db, s, pos, exp.chars, exp.idx);
        return Step.Next(exp.chars[exp.idx]);
      }
      if pos == |s| {
        assert s[pos..] == [];
        return if cut then Step.Malformed else End;
      }
      return Step.Next(s[pos]);
    }

    /** The items after the character under the cursor. */
    ghost function Behind(): seq<Item>
      reads this
      requires InBounds() && OnChar() && (exp.NoExp? ==> pos < |s|)
    {
      if exp.InExp? then Ahead(db, s, pos, InExp(exp.chars, exp.idx + 1)) else Ahead(db, s, pos + 1, NoExp)
    }

    /** Step past the code point under the cursor. */
    method Advance()
      requires InBounds() && OnChar() && (exp.NoExp? ==> pos < |s|)
      modifies `pos, `exp
      ensures InBounds() && Now() == old(Behind())
    {
      if exp.InExp? {
        exp := InExp(exp.chars, exp.idx + 1);
      } else {
        pos := pos + 1;
      }
    }

    /** Consume the code point and go into its expansion. */
    method Enter(chars: seq<Cp>)
      requires Valid() && exp.NoExp? && pos < |s| && s[pos] !in db.di && Expand(db, s[pos]) == chars
      modifies this
      ensures Valid() && Rest() == old(Rest()) && Less(Measure(), old(Measure()))
    {
      hide Good, Left, Ahead, Expand, Less, RankOf, Stands;
      ghost var input := Input();
      EntersExpansion(db, s, pos, chars);
      pos := pos + 1;
      exp := InExp(chars, 0);
      assert Look() == old(Look());
      NearerInput(Look(), Input(), input);
    }

    /** Consume an ignorable; it also ends the run being sorted. */
    method Ignore()
      requires Valid() && exp.NoExp? && pos < |s| && s[pos] in db.di
      modifies this
      ensures Valid() && Rest() == old(Rest()) && Less(Measure(), old(Measure()))
    {
      hide Yield, Good, Left, Ahead, Expand, Flatten, Less, RankOf, Stops, Scanning, Items, Stands;
      AheadIgnorable(db, s, pos);
      ghost var v := Look();
      pos := pos + 1;
      if ccc != STOPPER {
        GoodScans(v);
        AtIgnorable(db.ccc, v.ahead, Now());
        assert AtStop(v);
        ghost var input := Input();
        Mismatch(STOPPER, v);
        LessThanFarther(Measure(), v, input, old(Input()));
      } else {
        SkipIgnorable(db.ccc, v, Look());
      }
    }

    /** Whether code point cp, read from the input, expands. Then it is consumed, and the
        scan goes into its expansion; an ignorable also ends the run being sorted. */
    method BeginExpansion(cp: Cp) returns (began: bool)
      requires Valid() && exp.NoExp? && pos < |s| && cp == s[pos]
      modifies this
      ensures Valid() && Rest() == old(Rest())
      ensures began ==> Less(Measure(), old(Measure()))
      ensures !began ==> pos == old(pos) && exp.NoExp? && Look() == old(Look())
      ensures !began ==> pos < |s| && Now() == [Char(cp)] + Behind()
    {
      hide Good, Left, Ahead, Expand, HangulDecompose, Less, RankOf, Items, B.Serves, IsSyllable;
      var e, chars := B.ExpansionFound(tab.sections, tab.form, cp, rows, data, db);
      match e {
        case Ignorable =>
          Ignore();
          return true;
        case Hangul =>
          ExpandSyllable(db, cp);
          Enter(HangulDecompose(cp));
          return true;
        case Pool(_, _) =>
          ExpandListed(db, cp);
          Enter(chars);
          return true;
        case Identity =>
          StandsForItself(db, s, pos);
          return false;
      }
    }

    lemma GoodScans(v: View)
      requires Good(db.ccc, v) && v.cls != STOPPER
      ensures Scanning(db.ccc, v)
    {
    }

    /** v with its next register up to date is the scan, at a mark of class k to pass over. */
    ghost predicate AtMark(k: int, v: View)
      reads this
      requires InBounds()
    {
      && OnChar() && (exp.NoExp? ==> pos < |s|)
      && v == Look().(next := v.next)
      && v.ahead != [] && v.ahead[0].Char? && ClassOf(db.ccc, v.ahead[0].cp) == k && v.ahead[1..] == Behind()
      && nccc == Noted(ccc, v.next, k) && k != ccc
    }

    /** v is the scan at the end of its run, or just before it passed an ignorable there. */
    ghost predicate AtStop(v: View)
      reads this
      requires InBounds()
    {
      && Scanning(db.ccc, v) && Stops(db.ccc, v.ahead) && (cut ==> v.ahead != [])
      && v == Look().(ahead := v.ahead)
      && (Now() == v.ahead || v.ahead == [Break] + Now())
    }

    /** The code point under the cursor, of class k, is not of the class being emitted:
        note it and go on, start the next pass over the run, or leave the run. Here v is
        the scan before; an ignorable (class 0) is already behind the position. */
    method Mismatch(k: int, ghost v: View)
      requires InBounds() && Stands(tab, rows, data, db) && Good(db.ccc, v) && v.cls == ccc <= MAXCCC
      requires if k != STOPPER then AtMark(k, v) else AtStop(v)
      modifies this
      ensures Valid() && Rest() == Left(db.ccc, v)
      ensures Less(Measure(), RankOf(v, old(Input())))
    {
      hide Yield, Left, Ahead, Good, Scanning, Stops, Less, RankOf, ByteClasses, ClassOf, Stands;
      StandsOnBytes(tab, rows, data, db);
      Registers(db.ccc, v);
      if k == STOPPER {
        ScanRegisters(db.ccc, v);
      }
      if nccc == STOPPER {
        ghost var c := v.ahead[0].cp;
        assert v.ahead == [Char(c)] + Behind();
        PassKeeps(db.ccc, v, c, Behind());
        ccc := PRESCAN;
        nccc := k;
        savedPos, savedExp := pos, exp;
        done := [c];
        Advance();
        assert Look() == Passed(db.ccc, v, c, old(Behind()));
      } else if k != STOPPER {
        ghost var c := v.ahead[0].cp;
        assert v.ahead == [Char(c)] + Behind();
        PassKeeps(db.ccc, v, c, Behind());
        done := done + [c];
        Advance();
        assert Look() == Passed(db.ccc, v, c, old(Behind()));
      } else if nccc != NO_MORE {
        TurnKeeps(db.ccc, v, Now());
        ccc := nccc;
        nccc := NO_MORE;
        pos, exp := savedPos, savedExp;
        done := [];
        assert Look() == Turned(v, old(Now()));
      } else {
        TurnKeeps(db.ccc, v, Now());
        ccc := STOPPER;
        nccc := STOPPER;
        assert Look() == Turned(v, old(Now()));
      }
    }

    /** Emit the code point under the cursor if its class is the one being emitted;
        otherwise note it. */
    method Consider(cp: Cp) returns (emitted: bool)
      requires Valid() && OnChar() && (exp.NoExp? ==> pos < |s|) && Now() == [Char(cp)] + Behind()
      modifies this
      ensures Valid()
      ensures emitted ==> old(Rest()) == [cp] + Rest()
      ensures !emitted ==> Rest() == old(Rest()) && Less(Measure(), old(Measure()))
    {
      hide Yield, Left, Ahead, Good, Scanning, Stops, ClassOf, RankOf, Less, B.Serves;
      ghost var v := Look();
      assert v.ahead[1..] == Behind();
      var k := B.ClassFound(tab.sections, tab.form, cp, rows, data, db);
      if k != STOPPER && ccc < k && k < nccc {
        nccc := k;
      }
      if k == ccc {
        EmitKeeps(db.ccc, v, cp, Behind());
        Advance();
        if ccc != STOPPER {
          done := done + [cp];
        }
        assert Look() == Emitted(v, cp, Now());
        return true;
      }
      if k == STOPPER {
        GoodScans(v);
        AtStarter(db.ccc, v);
      }
      Mismatch(k, v);
      return false;
    }

    /** The next code point of what the name yields. */
    method Next() returns (r: Step)
      requires Valid()
      modifies this
      ensures Valid()
      ensures r.Next? ==> old(Rest()) == [r.cp] + Rest()
      ensures !r.Next? ==> old(Rest()) == [] && Rest() == [] && (r.Malformed? <==> cut)
    {
      hide Yield, Left, Ahead, Good, Scanning, Stops, Stands, RankOf, ClassOf;
      while true
        invariant Valid() && Rest() == old(Rest())
        decreases Measure().before, Measure().phase, Measure().classes, Measure().ahead, Measure().input
      {
        ghost var input := Input();
        var popped := PopFinishedExpansion();
        if popped {
          NearerInput(Look(), Input(), input);
          continue;
        }
        var here := Peek();
        ghost var v := Look();
        if here.Malformed? {
          AtCut(db.ccc, v);
          return here;
        }
        if here.End? {
          if ccc == STOPPER {
            IdleDone(db.ccc, v);
            return here;
          }
          GoodScans(v);
          AtEnd(db.ccc, v);
          Mismatch(STOPPER, v);
          continue;
        }
        if exp.NoExp? {
          var began := BeginExpansion(here.cp);
          if began {
            continue;
          }
        }
        var emitted := Consider(here.cp);
        if emitted {
          return here;
        }
      }
    }
  }

  lemma StandsOnBytes(tab: Table, rows: T.Tables, data: B.Data, db: Db)
    requires Stands(tab, rows, data, db)
    ensures ByteClasses(db.ccc)
  {
    hide B.Serves, ClassOf;
    forall c
      ensures ClassOf(db.ccc, c) <= 255
    {
      B.ServedClasses(tab.sections, tab.form, rows, data, db, c);
    }
  }

  lemma Registers(ccc: Classes, v: View)
    requires Good(ccc, v)
    ensures v.next == STOPPER <==> v.cls == STOPPER
    ensures 0 <= v.next <= NO_MORE && v.cls <= MAXCCC
    ensures forall c :: ClassOf(ccc, c) != STOPPER ==> IsMark(ccc, c)
    ensures v.next != STOPPER ==> forall k: int :: k >= 0 && k != STOPPER ==> Noted(v.cls, v.next, k) != STOPPER
    ensures v.cls == STOPPER ==> forall k: int :: Noted(v.cls, v.next, k) == STOPPER
  {
  }

  lemma ScanRegisters(ccc: Classes, v: View)
    requires Scanning(ccc, v)
    ensures v.cls != STOPPER && v.next != STOPPER
  {
  }

  lemma NearerInput(v: View, m: nat, n: nat)
    requires v.cls <= MAXCCC && m < n
    ensures Less(RankOf(v, m), RankOf(v, n))
  {
  }

  lemma LessThanFarther(r: Rank, v: View, m: nat, n: nat)
    requires v.cls <= MAXCCC && Less(r, RankOf(v, m)) && m < n
    ensures Less(r, RankOf(v, n))
  {
  }

  lemma SkipIgnorable(ccc: Classes, v: View, w: View)
    requires Good(ccc, v) && v.cls == STOPPER && v.start == v.ahead == [Break] + w.ahead
    requires w == View(w.ahead, w.ahead, v.done, v.cls, v.next, v.cut)
    ensures Good(ccc, w) && Left(ccc, w) == Left(ccc, v)
    ensures forall m, n :: Less(RankOf(w, m), RankOf(v, n))
  {
    hide Yield;
    IdleStarter(ccc, Break, w.ahead, v.cut);
  }

  lemma AtEnd(ccc: Classes, v: View)
    requires v.ahead == []
    ensures Stops(ccc, v.ahead)
  {
  }

  lemma AtStarter(ccc: Classes, v: View)
    requires v.ahead != [] && v.ahead[0].Char? && ClassOf(ccc, v.ahead[0].cp) == STOPPER
    ensures Stops(ccc, v.ahead)
  {
  }

  lemma IdleDone(ccc: Classes, v: View)
    requires v.cls == STOPPER && v.ahead == []
    ensures Left(ccc, v) == []
  {
    IdleEnd(ccc, v.cut);
  }

  // ---- names as bytes ----------------------------------------------------

  /** What the scan of a name yields. */
  ghost function Yielded(db: Db, name: seq<U.Byte>): seq<Cp> {
    var p := U.DecodePrefix(name);
    Yield(db.ccc, Flatten(db, p.cps), p.cut)
  }

  predicate Whole(name: seq<U.Byte>) {
    U.DecodeAll(name).Text?
  }

  /** For a name that decodes, with classes the passes reach, that is its normal form. */
  lemma YieldedIsNormalIff(db: Db, name: seq<U.Byte>)
    requires Whole(name)
    ensures Yielded(db, name) == Normalize(db, U.DecodeAll(name).cps) <==>
      Passable(db.ccc, Flatten(db, U.DecodeAll(name).cps))
  {
    hide Yield, U.DecodeAll, U.DecodePrefix, Flatten, Passable;
    U.WholeIff(name);
    YieldIsNormIff(db.ccc, Flatten(db, U.DecodeAll(name).cps));
  }

  /** Whether a name is well formed: it is, whatever the tables, when its bytes decode. */
  method Validate(tab: Table, name: seq<U.Byte>, ghost rows: T.Tables, ghost data: B.Data, ghost db: Db) returns (ok: bool)
    requires Stands(tab, rows, data, db)
    ensures ok <==> Whole(name)
  {
    hide Good, Stands, Scanner.Rest, Scanner.InBounds, Scanner.Look, U.DecodeAll, U.DecodePrefix, Yield, Flatten;
    U.WholeIff(name);
    var p := U.DecodeName(name);
    var c := new Scanner(tab, p.cps, p.cut, rows, data, db);
    while true
      invariant c.Valid() && c.cut == p.cut && fresh(c)
      decreases |c.Rest()|
    {
      var x := c.Next();
      if !x.Next? {
        return x.End?;
      }
    }
  }

  lemma YieldedIs(db: Db, name: seq<U.Byte>)
    ensures var p := U.DecodePrefix(name);
      Yielded(db, name) == Yield(db.ccc, Flatten(db, p.cps), p.cut) && (Whole(name) <==> !p.cut)
  {
    hide Yield, Flatten, U.DecodePrefix, U.DecodeAll;
    U.WholeIff(name);
  }

  datatype Answer = InvalidName | Answer(same: bool)

  /** Two yields compared one by one: a cut counts where it is come to before a difference. */
  function Compared(a: seq<Cp>, cutA: bool, b: seq<Cp>, cutB: bool): Answer {
    if (cutA && a <= b) || (cutB && b <= a) then InvalidName else Answer(a == b)
  }

  /** Whether two names are one name: the two scans side by side. */
  method EqInForm(tab: Table, a: seq<U.Byte>, b: seq<U.Byte>, ghost rows: T.Tables, ghost data: B.Data, ghost db: Db)
    returns (r: Answer)
    requires Stands(tab, rows, data, db)
    ensures a == b ==> r == Answer(true)
    ensures a != b ==> r == Compared(Yielded(db, a), !Whole(a), Yielded(db, b), !Whole(b))
  {
    hide Good, Stands, Scanner.Rest, Scanner.InBounds, Scanner.Look, U.DecodeAll, U.DecodePrefix, Yield, Flatten;
    hide Compared, Whole, Yielded;
    if a == b {
      return Answer(true);
    }
    YieldedIs(db, a);
    YieldedIs(db, b);
    var p := U.DecodeName(a);
    var q := U.DecodeName(b);
    var ca := new Scanner(tab, p.cps, p.cut, rows, data, db);
    var cb := new Scanner(tab, q.cps, q.cut, rows, data, db);
    ghost var out: seq<Cp> := [];
    while true
      invariant ca.Valid() && cb.Valid() && ca != cb && fresh(ca) && fresh(cb)
      invariant ca.cut == p.cut && cb.cut == q.cut
      invariant Yielded(db, a) == out + ca.Rest() && Yielded(db, b) == out + cb.Rest()
      decreases |ca.Rest()|
    {
      ghost var ra, rb := ca.Rest(), cb.Rest();
      var x := ca.Next();
      if x.Malformed? {
        CutComes(out, ra, rb, true, q.cut);
        return InvalidName;
      }
      var y := cb.Next();
      if y.Malformed? {
        CutComes(out, ra, rb, p.cut, true);
        return InvalidName;
      }
      if x != y {
        FirstDiffers(out, ra, rb, x, y, ca.Rest(), cb.Rest(), p.cut, q.cut);
        return Answer(false);
      }
      if x.End? {
        BothEnd(out);
        return Answer(true);
      }
      out := out + [x.cp];
    }
  }

  lemma CutComes(out: seq<Cp>, ra: seq<Cp>, rb: seq<Cp>, cutA: bool, cutB: bool)
    requires (cutA && ra == []) || (cutB && rb == [])
    ensures Compared(out + ra, cutA, out + rb, cutB) == InvalidName
  {
    assert out + [] == out;
  }

  lemma BothEnd(out: seq<Cp>)
    ensures Compared(out + [], false, out + [], false) == Answer(true)
  {
  }

  lemma FirstDiffers(out: seq<Cp>, ra: seq<Cp>, rb: seq<Cp>, x: Step, y: Step, ta: seq<Cp>, tb: seq<Cp>, cutA: bool, cutB: bool)
    requires x != y && !x.Malformed? && !y.Malformed?
    requires (x.End? ==> !cutA) && (y.End? ==> !cutB)
    requires ra == if x.Next? then [x.cp] + ta else []
    requires rb == if y.Next? then [y.cp] + tb else []
    ensures Compared(out + ra, cutA, out + rb, cutB) == Answer(false)
  {
    var a, b, n := out + ra, out + rb, |out|;
    assert a[n..] == ra && b[n..] == rb;
    if x.Next? && y.Next? {
      assert a[n] == x.cp && b[n] == y.cp;
    }
  }

  /** The name decodes, to characters whose classes the passes reach. */
  ghost predicate Readable(db: Db, name: seq<U.Byte>) {
    Whole(name) && Passable(db.ccc, Flatten(db, U.DecodeAll(name).cps))
  }

  /** Readable names are one name exactly when their normal forms agree. */
  lemma ReadableNamesCompare(db: Db, a: seq<U.Byte>, b: seq<U.Byte>)
    requires Readable(db, a) && Readable(db, b)
    ensures Compared(Yielded(db, a), !Whole(a), Yielded(db, b), !Whole(b)) ==
      Answer(Normalize(db, U.DecodeAll(a).cps) == Normalize(db, U.DecodeAll(b).cps))
  {
    hide Yielded, Normalize, Flatten, U.DecodeAll, Passable;
    YieldedIsNormalIff(db, a);
    YieldedIsNormalIff(db, b);
  }

  /** From the generated blob to the answer: the kernel finds two readable names the same
      exactly when the reference reader's normal forms of them, over the data the blob was
      generated from, agree. */
  method CompareNames(blob: seq<U.Byte>, form: B.Form, a: seq<U.Byte>, b: seq<U.Byte>,
                      ghost rows: T.Tables, ghost data: B.Data, ghost db: Db)
    returns (r: Answer)
    requires blob == T.Image(rows) && B.Serves(T.SectionsOf(rows), form, rows, data, db)
    ensures a == b ==> r == Answer(true)
    ensures a != b ==> r == Compared(Yielded(db, a), !Whole(a), Yielded(db, b), !Whole(b))
    ensures Readable(db, a) && Readable(db, b) ==>
      r == Answer(Normalize(db, U.DecodeAll(a).cps) == Normalize(db, U.DecodeAll(b).cps))
  {
    hide T.Image, T.Open, T.SectionsOf, T.Writable, B.Sorted, B.Made, B.Reflects, Yielded, Flatten, U.DecodeAll, Readable, Normalize, Compared;
    T.OpensImage(rows);
    var tab := Table(T.Open(blob), form);
    r := EqInForm(tab, a, b, rows, data, db);
    if Readable(db, a) && Readable(db, b) {
      ReadableNamesCompare(db, a, b);
    }
  }
}
