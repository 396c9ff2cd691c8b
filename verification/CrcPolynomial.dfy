/** Which CRC the loop computes: the PKZIP one (section 4.4.7 of PKWARE's APPNOTE.TXT),
    as a remainder of polynomials over the field of two elements. */
module CrcPolynomial {
  import opened Crc

  /** A polynomial over two elements: the exponents whose coefficient is 1. */
  type Poly = set<nat>

  /** The generator x^32 + x^26 + x^23 + ... + x + 1. */
  const Generator: Poly := {32, 26, 23, 22, 16, 12, 11, 10, 8, 7, 5, 4, 2, 1, 0}

  function Plus(a: Poly, b: Poly): Poly { (a - b) + (b - a) }

  /** Times x^k. */
  function Raised(a: Poly, k: nat): Poly { set e | e in a :: e + k }

  /** All coefficients below x^k. */
  function Ones(k: nat): Poly { if k == 0 then {} else Ones(k - 1) + {k - 1} }

  /** The polynomial x^e, or none. */
  function Term(present: bool, e: nat): Poly { if present then {e} else {} }

  predicate Low(w: Word) { w & 1 == 1 }

  function Half(w: Word): Word { w >> 1 }

  function Complement(w: Word): Word { !w }

  /** The lowest `n` bits of a word, the least significant first: it has the highest
      exponent. */
  function Reflected(w: Word, n: nat): Poly
    decreases n
  {
    if n == 0 then {} else Plus(Term(Low(w), n - 1), Reflected(Half(w), n - 1))
  }

  function WordPoly(w: Word): Poly { Reflected(w, 32) }

  /** The message's bits, each byte's least significant first. */
  function MessagePoly(m: Bytes): Poly
    decreases |m|
  {
    if m == [] then {}
    else Plus(Raised(MessagePoly(m[..|m| - 1]), 8), Reflected(m[|m| - 1] as Word, 8))
  }

  /** The generator times a polynomial, given by its coefficients from the highest. */
  function Product(q: seq<bool>): Poly
    decreases |q|
  {
    if q == [] then {}
    else Plus(Raised(Product(q[..|q| - 1]), 1), if q[|q| - 1] then Generator else {})
  }

  ghost predicate Multiple(p: Poly) { exists q: seq<bool> :: p == Product(q) }

  predicate Below(p: Poly, n: nat) { forall e | e in p :: e < n }

  /** `r` is what remains of `p` divided by the generator. */
  ghost predicate Remainder(r: Poly, p: Poly) { Below(r, 32) && Multiple(Plus(r, p)) }

  // ------------------------------------------------------------------- algebra

  lemma RaisedIn(a: Poly, k: nat, e: nat)
    ensures e in Raised(a, k) <==> e >= k && e - k in a
  {
    if e >= k && e - k in a { assert (e - k) + k == e; }
  }

  lemma Units(a: Poly, k: nat)
    ensures Plus(a, {}) == a && Plus({}, a) == a && Plus(a, a) == {} && Raised({}, k) == {} && Raised(a, 0) == a
  {
    assert forall e | e in a :: e + 0 == e;
  }

  lemma Regroup(a: Poly, b: Poly, c: Poly, d: Poly)
    ensures Plus(Plus(a, b), Plus(c, d)) == Plus(Plus(a, c), Plus(b, d))
  {
  }

  lemma Associates(a: Poly, b: Poly, c: Poly)
    ensures Plus(Plus(a, b), c) == Plus(a, Plus(b, c)) && Plus(a, b) == Plus(b, a)
  {
  }

  lemma Cancels(t: Poly, x: Poly, p: Poly)
    ensures Plus(Plus(t, x), Plus(p, t)) == Plus(x, p) && Plus(Plus(x, p), p) == x
  {
  }

  lemma RaisedSum(a: Poly, b: Poly, k: nat)
    ensures Raised(Plus(a, b), k) == Plus(Raised(a, k), Raised(b, k))
  {
    hide Raised, Plus;
    forall e: nat ensures e in Raised(Plus(a, b), k) <==> e in Plus(Raised(a, k), Raised(b, k)) {
      RaisedIn(Plus(a, b), k, e);
      RaisedIn(a, k, e);
      RaisedIn(b, k, e);
      PlusIn(Raised(a, k), Raised(b, k), e);
      if e >= k { PlusIn(a, b, e - k); }
    }
  }

  lemma PlusIn(a: Poly, b: Poly, e: nat)
    ensures e in Plus(a, b) <==> (e in a) != (e in b)
  {
  }

  lemma RaisedTwice(a: Poly, j: nat, k: nat)
    ensures Raised(Raised(a, j), k) == Raised(a, j + k)
  {
    hide Raised;
    forall e: nat ensures e in Raised(Raised(a, j), k) <==> e in Raised(a, j + k) {
      RaisedIn(Raised(a, j), k, e);
      RaisedIn(a, j + k, e);
      if e >= k { RaisedIn(a, j, e - k); }
    }
  }

  lemma RaisedTerm(present: bool, e: nat, k: nat)
    ensures Raised(Term(present, e), k) == Term(present, e + k)
  {
  }

  lemma TermSum(x: bool, y: bool, e: nat)
    ensures Plus(Term(x, e), Term(y, e)) == Term(x != y, e)
  {
  }

  // ------------------------------------------------------- words as polynomials

  lemma {:induction false} ReflectedBelow(w: Word, n: nat)
    ensures Below(Reflected(w, n), n)
    decreases n
  {
    hide Low, Half;
    if n > 0 { ReflectedBelow(Half(w), n - 1); }
  }

  lemma XorBits(a: Word, b: Word)
    ensures Half(Xor(a, b)) == Xor(Half(a), Half(b)) && (Low(Xor(a, b)) <==> Low(a) != Low(b))
  {
  }

  lemma {:induction false} ReflectedXor(a: Word, b: Word, n: nat)
    ensures Reflected(Xor(a, b), n) == Plus(Reflected(a, n), Reflected(b, n))
    decreases n
  {
    hide Plus, Term, Low, Half, Xor;
    if n > 0 {
      XorBits(a, b);
      ReflectedXor(Half(a), Half(b), n - 1);
      TermSum(Low(a), Low(b), n - 1);
      Regroup(Term(Low(a), n - 1), Reflected(Half(a), n - 1), Term(Low(b), n - 1), Reflected(Half(b), n - 1));
    } else {
      Units({}, 0);
    }
  }

  /** The word has no bit at or above `n`. */
  predicate Fits(w: Word, n: nat)
    decreases n
  {
    if n == 0 then w == 0 else Fits(Half(w), n - 1)
  }

  lemma ReflectedNothing()
    ensures Reflected(0, 1) == {} == Raised(Reflected(0, 0), 1)
  {
    assert (0 as Word) & 1 == 0;
  }

  /** Zero bits on top raise the polynomial. */
  lemma {:induction false} Topped(w: Word, n: nat)
    requires Fits(w, n)
    ensures Reflected(w, n + 1) == Raised(Reflected(w, n), 1)
    decreases n
  {
    hide Plus, Raised, Term, Low, Half;
    if n > 0 {
      Topped(Half(w), n - 1);
      var low, rest := Low(w), Reflected(Half(w), n - 1);
      RaisedSum(Term(low, n - 1), rest, 1);
      RaisedTerm(low, n - 1, 1);
    } else {
      ReflectedNothing();
    }
  }

  lemma {:induction false} FitsMore(w: Word, n: nat)
    requires Fits(w, n)
    ensures Fits(w, n + 1)
    decreases n
  {
    if n > 0 { FitsMore(Half(w), n - 1); } else { assert Half(0) == 0; }
  }

  lemma {:induction false} ToppedBy(w: Word, n: nat, k: nat)
    requires Fits(w, n)
    ensures Reflected(w, n + k) == Raised(Reflected(w, n), k) && Fits(w, n + k)
  {
    hide Reflected, Fits, Raised;
    if k > 0 {
      ToppedBy(w, n, k - 1);
      Topped(w, n + k - 1);
      FitsMore(w, n + k - 1);
      RaisedTwice(Reflected(w, n), k - 1, 1);
    } else {
      Units(Reflected(w, n), 0);
    }
  }

  /** The word is two to the `n`. */
  predicate Halves(w: Word, n: nat)
    decreases n
  {
    if n == 0 then w == 1 else !Low(w) && Halves(Half(w), n - 1)
  }

  lemma Halved(v: Word, top: Word)
    requires v < top && !Low(top)
    ensures Half(v) < Half(top)
  {
  }

  lemma NothingBelow(v: Word)
    requires v < 1
    ensures v == 0
  {
  }

  lemma {:induction false} BelowFits(v: Word, top: Word, n: nat)
    requires v < top && Halves(top, n)
    ensures Fits(v, n)
    decreases n
  {
    hide Low, Half;
    if n > 0 {
      Halved(v, top);
      BelowFits(Half(v), Half(top), n - 1);
    } else {
      NothingBelow(v);
    }
  }

  lemma Powers()
    ensures Halves(0x100, 8) && Halves(0x8000_0000, 31)
  {
    assert Halves(0x1, 0);
    assert Halves(0x2, 1);
    assert Halves(0x4, 2);
    assert Halves(0x8, 3);
    assert Halves(0x10, 4);
    assert Halves(0x20, 5);
    assert Halves(0x40, 6);
    assert Halves(0x80, 7);
    assert Halves(0x100, 8);
    assert Halves(0x200, 9);
    assert Halves(0x400, 10);
    assert Halves(0x800, 11);
    assert Halves(0x1000, 12);
    assert Halves(0x2000, 13);
    assert Halves(0x4000, 14);
    assert Halves(0x8000, 15);
    assert Halves(0x10000, 16);
    assert Halves(0x20000, 17);
    assert Halves(0x40000, 18);
    assert Halves(0x80000, 19);
    assert Halves(0x100000, 20);
    assert Halves(0x200000, 21);
    assert Halves(0x400000, 22);
    assert Halves(0x800000, 23);
    assert Halves(0x1000000, 24);
    assert Halves(0x2000000, 25);
    assert Halves(0x4000000, 26);
    assert Halves(0x8000000, 27);
    assert Halves(0x10000000, 28);
    assert Halves(0x20000000, 29);
    assert Halves(0x40000000, 30);
    assert Halves(0x80000000, 31);
  }

  lemma ShiftFits(w: Word)
    ensures Fits(Half(w), 31)
  {
    hide Fits, Halves;
    Powers();
    assert Half(w) < 0x8000_0000;
    BelowFits(Half(w), 0x8000_0000, 31);
  }

  lemma ByteFits(b: bv8)
    ensures Fits(b as Word, 8)
  {
    hide Fits, Halves;
    Powers();
    assert b as Word < 0x100;
    BelowFits(b as Word, 0x100, 8);
  }

  lemma Next(w: Word, n: nat, rest: Poly)
    requires n > 0 && Reflected(Half(w), n - 1) == rest && Below(rest, n - 1)
    ensures Reflected(w, n) == rest + Term(Low(w), n - 1)
  {
    hide Low, Half;
  }

  // The constant's bits, from the most significant, eight at a time.

  lemma Bits8()
    ensures Reflected(0xed, 8) == {0, 1, 2, 4, 5, 7}
  {
    assert Reflected(0, 0) == {};
    hide Reflected;
    Next(0x1, 1, {});
    Next(0x3, 2, {0});
    Next(0x7, 3, {0, 1});
    Next(0xe, 4, {0, 1, 2});
    Next(0x1d, 5, {0, 1, 2});
    Next(0x3b, 6, {0, 1, 2, 4});
    Next(0x76, 7, {0, 1, 2, 4, 5});
    Next(0xed, 8, {0, 1, 2, 4, 5});
  }

  lemma Bits16()
    ensures Reflected(0xedb8, 16) == {0, 1, 2, 4, 5, 7, 8, 10, 11, 12}
  {
    Bits8();
    hide Reflected;
    Next(0x1db, 9, {0, 1, 2, 4, 5, 7});
    Next(0x3b6, 10, {0, 1, 2, 4, 5, 7, 8});
    Next(0x76d, 11, {0, 1, 2, 4, 5, 7, 8});
    Next(0xedb, 12, {0, 1, 2, 4, 5, 7, 8, 10});
    Next(0x1db7, 13, {0, 1, 2, 4, 5, 7, 8, 10, 11});
    Next(0x3b6e, 14, {0, 1, 2, 4, 5, 7, 8, 10, 11, 12});
    Next(0x76dc, 15, {0, 1, 2, 4, 5, 7, 8, 10, 11, 12});
    Next(0xedb8, 16, {0, 1, 2, 4, 5, 7, 8, 10, 11, 12});
  }

  lemma Bits24()
    ensures Reflected(0xedb883, 24) == {0, 1, 2, 4, 5, 7, 8, 10, 11, 12, 16, 22, 23}
  {
    Bits16();
    hide Reflected;
    Next(0x1db71, 17, {0, 1, 2, 4, 5, 7, 8, 10, 11, 12});
    Next(0x3b6e2, 18, {0, 1, 2, 4, 5, 7, 8, 10, 11, 12, 16});
    Next(0x76dc4, 19, {0, 1, 2, 4, 5, 7, 8, 10, 11, 12, 16});
    Next(0xedb88, 20, {0, 1, 2, 4, 5, 7, 8, 10, 11, 12, 16});
    Next(0x1db710, 21, {0, 1, 2, 4, 5, 7, 8, 10, 11, 12, 16});
    Next(0x3b6e20, 22, {0, 1, 2, 4, 5, 7, 8, 10, 11, 12, 16});
    Next(0x76dc41, 23, {0, 1, 2, 4, 5, 7, 8, 10, 11, 12, 16});
    Next(0xedb883, 24, {0, 1, 2, 4, 5, 7, 8, 10, 11, 12, 16, 22});
  }

  lemma Bits32()
    ensures Reflected(0xedb88320, 32) == {0, 1, 2, 4, 5, 7, 8, 10, 11, 12, 16, 22, 23, 26}
  {
    Bits24();
    hide Reflected;
    Next(0x1db7106, 25, {0, 1, 2, 4, 5, 7, 8, 10, 11, 12, 16, 22, 23});
    Next(0x3b6e20c, 26, {0, 1, 2, 4, 5, 7, 8, 10, 11, 12, 16, 22, 23});
    Next(0x76dc419, 27, {0, 1, 2, 4, 5, 7, 8, 10, 11, 12, 16, 22, 23});
    Next(0xedb8832, 28, {0, 1, 2, 4, 5, 7, 8, 10, 11, 12, 16, 22, 23, 26});
    Next(0x1db71064, 29, {0, 1, 2, 4, 5, 7, 8, 10, 11, 12, 16, 22, 23, 26});
    Next(0x3b6e20c8, 30, {0, 1, 2, 4, 5, 7, 8, 10, 11, 12, 16, 22, 23, 26});
    Next(0x76dc4190, 31, {0, 1, 2, 4, 5, 7, 8, 10, 11, 12, 16, 22, 23, 26});
    Next(0xedb88320, 32, {0, 1, 2, 4, 5, 7, 8, 10, 11, 12, 16, 22, 23, 26});
  }

  /** The constant of the loop is the generator without its highest term. */
  lemma PolynomialIsGenerator()
    ensures Plus(WordPoly(POLYNOMIAL), {32}) == Generator
  {
    hide Reflected, Plus;
    Bits32();
    HighestTerm(WordPoly(POLYNOMIAL));
  }

  lemma HighestTerm(p: Poly)
    requires p == {26, 23, 22, 16, 12, 11, 10, 8, 7, 5, 4, 2, 1, 0}
    ensures Plus(p, {32}) == Generator
  {
  }

  lemma {:induction false} OnesBelow(k: nat)
    ensures Below(Ones(k), k)
  {
    if k > 0 { OnesBelow(k - 1); }
  }

  lemma OnesMore(w: Word, n: nat)
    requires n > 0 && Low(w) && Reflected(Half(w), n - 1) == Ones(n - 1)
    ensures Reflected(w, n) == Ones(n)
  {
    hide Low, Half, Reflected;
    OnesBelow(n - 1);
    Next(w, n, Ones(n - 1));
  }

  lemma AllOnesWord()
    ensures WordPoly(0xffff_ffff) == Ones(32)
  {
    assert Reflected(0, 0) == Ones(0);
    hide Reflected, Ones;
    OnesMore(0x1, 1);
    OnesMore(0x3, 2);
    OnesMore(0x7, 3);
    OnesMore(0xf, 4);
    OnesMore(0x1f, 5);
    OnesMore(0x3f, 6);
    OnesMore(0x7f, 7);
    OnesMore(0xff, 8);
    OnesMore(0x1ff, 9);
    OnesMore(0x3ff, 10);
    OnesMore(0x7ff, 11);
    OnesMore(0xfff, 12);
    OnesMore(0x1fff, 13);
    OnesMore(0x3fff, 14);
    OnesMore(0x7fff, 15);
    OnesMore(0xffff, 16);
    OnesMore(0x1ffff, 17);
    OnesMore(0x3ffff, 18);
    OnesMore(0x7ffff, 19);
    OnesMore(0xfffff, 20);
    OnesMore(0x1fffff, 21);
    OnesMore(0x3fffff, 22);
    OnesMore(0x7fffff, 23);
    OnesMore(0xffffff, 24);
    OnesMore(0x1ffffff, 25);
    OnesMore(0x3ffffff, 26);
    OnesMore(0x7ffffff, 27);
    OnesMore(0xfffffff, 28);
    OnesMore(0x1fffffff, 29);
    OnesMore(0x3fffffff, 30);
    OnesMore(0x7fffffff, 31);
    OnesMore(0xffffffff, 32);
  }

  // ------------------------------------------------------------- one bit step

  lemma StepIs(w: Word)
    ensures BitStep(w) == if Low(w) then Xor(Half(w), POLYNOMIAL) else Half(w)
  {
  }

  /** A bit step multiplies by x and takes the generator off when x^32 appears. */
  lemma StepPoly(w: Word)
    ensures WordPoly(BitStep(w)) == Plus(Raised(WordPoly(w), 1), if Low(w) then Generator else {})
  {
    hide Reflected, Plus, Raised, Term, Low, Half, Xor, BitStep;
    var low, rest, x := Low(w), Reflected(Half(w), 31), WordPoly(Half(w));
    LowFirst(w);
    StepIs(w);
    ShiftFits(w);
    Topped(Half(w), 31);
    RaisedSum(Term(low, 31), rest, 1);
    RaisedTerm(low, 31, 1);
    TermIs(32);
    if low {
      PolynomialIsGenerator();
      ReflectedXor(Half(w), POLYNOMIAL, 32);
      Cancels({32}, x, WordPoly(POLYNOMIAL));
    } else {
      Units(x, 0);
    }
  }

  lemma TermIs(e: nat)
    ensures Term(true, e) == {e} && Term(false, e) == {}
  {
  }

  lemma LowFirst(w: Word)
    ensures WordPoly(w) == Plus(Term(Low(w), 31), Reflected(Half(w), 31))
  {
    hide Low, Half;
  }

  lemma {:induction false} StepsPoly(w: Word, n: nat) returns (q: seq<bool>)
    ensures |q| == n && WordPoly(BitSteps(w, n)) == Plus(Raised(WordPoly(w), n), Product(q))
  {
    hide BitStep, WordPoly, Plus, Raised;
    var p := WordPoly(w);
    if n == 0 {
      q := [];
      Units(p, 0);
    } else {
      var r := StepsPoly(w, n - 1);
      var low := Low(BitSteps(w, n - 1));
      StepPoly(BitSteps(w, n - 1));
      q := r + [low];
      assert q[..|q| - 1] == r;
      RaisedSum(Raised(p, n - 1), Product(r), 1);
      RaisedTwice(p, n - 1, 1);
      Associates(Raised(p, n), Raised(Product(r), 1), if low then Generator else {});
    }
  }

  // ------------------------------------------------------------------ products

  lemma {:induction false} ProductJoins(a: seq<bool>, b: seq<bool>)
    ensures Product(a + b) == Plus(Raised(Product(a), |b|), Product(b))
    decreases |b|
  {
    hide Plus, Raised;
    if b == [] {
      assert a + b == a;
      Units(Product(a), 0);
    } else {
      var n := |b| - 1;
      assert (a + b)[..|a + b| - 1] == a + b[..n];
      ProductJoins(a, b[..n]);
      RaisedSum(Raised(Product(a), n), Product(b[..n]), 1);
      RaisedTwice(Product(a), n, 1);
      Associates(Raised(Product(a), n + 1), Raised(Product(b[..n]), 1), if b[n] then Generator else {});
    }
  }

  /** The number being divided after the message, from a register of all ones. */
  function Dividend(m: Bytes): Poly { Plus(Raised(MessagePoly(m), 32), Raised(Ones(32), 8 * |m|)) }

  lemma DividendMore(m: Bytes)
    requires m != []
    ensures var init, last := m[..|m| - 1], m[|m| - 1];
            Dividend(m) == Plus(Raised(Dividend(init), 8), Raised(Reflected(last as Word, 8), 32))
  {
    hide Reflected, Plus, Raised, Ones;
    var init, byte := m[..|m| - 1], Reflected(m[|m| - 1] as Word, 8);
    var p, ones := MessagePoly(init), Raised(Ones(32), 8 * |m|);
    RaisedSum(Raised(p, 8), byte, 32);
    RaisedTwice(p, 8, 32);
    RaisedSum(Raised(p, 32), Raised(Ones(32), 8 * |init|), 8);
    RaisedTwice(p, 32, 8);
    RaisedTwice(Ones(32), 8 * |init|, 8);
    Associates(Raised(p, 40), Raised(byte, 32), ones);
    Associates(Raised(p, 40), ones, Raised(byte, 32));
    Associates(Raised(byte, 32), ones, {});
  }

  /** The register is the dividend, less a multiple of the generator. */
  lemma {:induction false} RegisterPoly(m: Bytes) returns (q: seq<bool>)
    ensures WordPoly(Register(0xffff_ffff, m)) == Plus(Dividend(m), Product(q))
    decreases |m|
  {
    hide Reflected, BitStep, BitSteps, Plus, Raised, Product, Ones;
    if m == [] {
      AllOnesWord();
      q := [];
      NothingDivided();
    } else {
      hide Dividend;
      var init, b := m[..|m| - 1], m[|m| - 1];
      var p := RegisterPoly(init);
      var r := Register(0xffff_ffff, init);
      var s := StepsPoly(Xor(r, b as Word), 8);
      ReflectedXor(r, b as Word, 32);
      ByteFits(b);
      ToppedBy(b as Word, 8, 24);
      ProductJoins(p, s);
      DividendMore(m);
      q := p + s;
      StepSum(WordPoly(r), Reflected(b as Word, 8), Dividend(init), Product(p), Product(s));
    }
  }

  lemma NothingDivided()
    ensures Plus(Dividend([]), Product([])) == Ones(32)
  {
    hide Plus, Raised, Ones;
    Units(Ones(32), 32);
  }

  lemma StepSum(r: Poly, byte: Poly, dividend: Poly, p: Poly, s: Poly)
    requires r == Plus(dividend, p)
    ensures Plus(Raised(Plus(r, Raised(byte, 24)), 8), s)
            == Plus(Plus(Raised(dividend, 8), Raised(byte, 32)), Plus(Raised(p, 8), s))
  {
    hide Plus, Raised;
    RaisedSum(r, Raised(byte, 24), 8);
    RaisedTwice(byte, 24, 8);
    RaisedSum(dividend, p, 8);
    var d, b, x := Raised(dividend, 8), Raised(byte, 32), Raised(p, 8);
    Regroup(d, x, b, {});
    Units(b, 0);
    Units(x, 0);
    Associates(Plus(d, b), x, s);
  }

  // ---------------------------------------------------------------- uniqueness

  function Both(a: seq<bool>, b: seq<bool>): (r: seq<bool>)
    requires |a| == |b|
    ensures |r| == |a| && forall i | 0 <= i < |a| :: r[i] == (a[i] != b[i])
  {
    seq(|a|, i requires 0 <= i < |a| => a[i] != b[i])
  }

  lemma GeneratorSum(x: bool, y: bool)
    ensures Plus(if x then Generator else {}, if y then Generator else {}) == if x != y then Generator else {}
  {
    Units(Generator, 0);
    Units({}, 0);
  }

  lemma {:induction false} ProductSum(a: seq<bool>, b: seq<bool>)
    requires |a| == |b|
    ensures Product(Both(a, b)) == Plus(Product(a), Product(b))
    decreases |a|
  {
    hide Plus, Raised;
    if a != [] {
      var n := |a| - 1;
      assert Both(a, b)[..n] == Both(a[..n], b[..n]);
      ProductSum(a[..n], b[..n]);
      RaisedSum(Product(a[..n]), Product(b[..n]), 1);
      GeneratorSum(a[n], b[n]);
      Regroup(Raised(Product(a[..n]), 1), if a[n] then Generator else {}, Raised(Product(b[..n]), 1), if b[n] then Generator else {});
    } else {
      Units({}, 0);
    }
  }

  function Zeros(n: nat): seq<bool> { seq(n, _ => false) }

  lemma {:induction false} ZeroProduct(n: nat)
    ensures Product(Zeros(n)) == {}
  {
    hide Plus, Raised;
    if n > 0 {
      assert Zeros(n)[..n - 1] == Zeros(n - 1);
      ZeroProduct(n - 1);
      Units({}, 1);
    }
  }

  lemma Padded(q: seq<bool>, n: nat)
    ensures Product(Zeros(n) + q) == Product(q)
  {
    hide Plus, Raised;
    ZeroProduct(n);
    ProductJoins(Zeros(n), q);
    Units(Product(q), |q|);
  }

  lemma MultipleSum(a: Poly, b: Poly)
    requires Multiple(a) && Multiple(b)
    ensures Multiple(Plus(a, b))
  {
    hide Plus, Product;
    var p: seq<bool> :| a == Product(p);
    var q: seq<bool> :| b == Product(q);
    Padded(p, |q|);
    Padded(q, |p|);
    ProductSum(Zeros(|q|) + p, Zeros(|p|) + q);
  }

  predicate HasTop(p: Poly, e: nat) { e in p && Below(p, e + 1) }

  lemma TopRaised(p: Poly, e: nat, low: bool)
    requires HasTop(p, e) && e >= 32
    ensures HasTop(Plus(Raised(p, 1), if low then Generator else {}), e + 1)
  {
    RaisedIn(p, 1, e + 1);
  }

  /** A product by a polynomial with highest coefficient 1 has that degree more. */
  lemma {:induction false} ProductTop(q: seq<bool>)
    requires q != [] && q[0]
    ensures HasTop(Product(q), 31 + |q|)
    decreases |q|
  {
    hide Plus, Raised;
    var n := |q| - 1;
    if n == 0 {
      assert q[..0] == [];
      Units(Generator, 1);
    } else {
      ProductTop(q[..n]);
      TopRaised(Product(q[..n]), 31 + n, q[n]);
    }
  }

  lemma {:induction false} SmallMultiple(q: seq<bool>)
    requires Below(Product(q), 32)
    ensures Product(q) == {}
  {
    if q != [] {
      hide Product;
      if q[0] {
        ProductTop(q);
      } else {
        assert q == Zeros(1) + q[1..];
        Padded(q[1..], 1);
        SmallMultiple(q[1..]);
      }
    }
  }

  lemma SameWhenNothing(r: Poly, s: Poly)
    requires Plus(r, s) == {}
    ensures r == s
  {
    forall e: nat ensures e in r <==> e in s { PlusIn(r, s, e); }
  }

  lemma BelowSum(r: Poly, s: Poly, n: nat)
    requires Below(r, n) && Below(s, n)
    ensures Below(Plus(r, s), n)
  {
  }

  lemma RemainderUnique(r: Poly, s: Poly, p: Poly)
    requires Remainder(r, p) && Remainder(s, p)
    ensures r == s
  {
    hide Plus, Product, Below;
    MultipleSum(Plus(r, p), Plus(s, p));
    Regroup(r, p, s, p);
    Units(p, 0);
    Units(Plus(r, s), 0);
    BelowSum(r, s, 32);
    var q: seq<bool> :| Plus(r, s) == Product(q);
    SmallMultiple(q);
    SameWhenNothing(r, s);
  }

  lemma Parts(low: bool, n: nat, rest: Poly, other: bool, more: Poly)
    requires Below(rest, n) && Below(more, n) && Plus(Term(low, n), rest) == Plus(Term(other, n), more)
    ensures low == other && rest == more
  {
    var p := Plus(Term(low, n), rest);
    PlusIn(Term(low, n), rest, n);
    PlusIn(Term(other, n), more, n);
    forall e: nat ensures e in rest <==> e in more {
      PlusIn(Term(low, n), rest, e);
      PlusIn(Term(other, n), more, e);
    }
  }

  /** Words are their polynomials. */
  lemma {:induction false} ReflectedInjective(a: Word, b: Word, n: nat)
    requires Fits(a, n) && Fits(b, n) && Reflected(a, n) == Reflected(b, n)
    ensures a == b
    decreases n
  {
    hide Plus, Term, Below, Low, Half;
    if n > 0 {
      ReflectedBelow(Half(a), n - 1);
      ReflectedBelow(Half(b), n - 1);
      Parts(Low(a), n - 1, Reflected(Half(a), n - 1), Low(b), Reflected(Half(b), n - 1));
      ReflectedInjective(Half(a), Half(b), n - 1);
      SameWord(a, b);
    }
  }

  lemma SameWord(a: Word, b: Word)
    requires Half(a) == Half(b) && Low(a) == Low(b)
    ensures a == b
  {
  }

  lemma Complemented(w: Word)
    ensures Complement(w) == Xor(w, 0xffff_ffff) && Complement(Complement(w)) == w
  {
  }

  lemma ComplementPoly(w: Word)
    ensures WordPoly(Complement(w)) == Plus(WordPoly(w), Ones(32))
  {
    hide Reflected, Plus, Ones, Complement, Xor;
    Complemented(w);
    ReflectedXor(w, 0xffff_ffff, 32);
    AllOnesWord();
  }

  lemma RegisterRemains(m: Bytes)
    ensures Remainder(WordPoly(Register(0xffff_ffff, m)), Dividend(m))
  {
    hide Reflected, Register, Product, Plus, Dividend, Below;
    var r := WordPoly(Register(0xffff_ffff, m));
    var q := RegisterPoly(m);
    Associates(Dividend(m), Product(q), {});
    Associates(r, Dividend(m), {});
    Cancels({}, Product(q), Dividend(m));
    ReflectedBelow(Register(0xffff_ffff, m), 32);
  }

  /** For every message: a word is its checksum if and only if the word's complement,
      bits reflected, is the remainder modulo the generator of the message's bits
      followed by 32 zeros, the first 32 of them complemented. */
  lemma ChecksumIsRemainder(m: Bytes, c: Word)
    ensures c == Checksum(m) <==> Remainder(Plus(WordPoly(c), Ones(32)), Dividend(m))
  {
    hide Reflected, Register, Remainder, Plus, Ones, Dividend, Complement, Checksum, Fits;
    var r := Register(0xffff_ffff, m);
    ChecksumIs(m);
    RegisterRemains(m);
    ComplementPoly(c);
    Complemented(c);
    Complemented(r);
    if Remainder(WordPoly(Complement(c)), Dividend(m)) {
      RemainderUnique(WordPoly(r), WordPoly(Complement(c)), Dividend(m));
      WordFits(r);
      WordFits(Complement(c));
      ReflectedInjective(r, Complement(c), 32);
    }
  }

  lemma ChecksumIs(m: Bytes)
    ensures Checksum(m) == Complement(Register(0xffff_ffff, m))
  {
    hide Register;
  }

  lemma WordFits(w: Word)
    ensures Fits(w, 32)
  {
    ShiftFits(w);
  }
}
