/** The WizCoin value object: an amount of wizard money held as three integer
    counts of galleons, sickles and knuts.  The arithmetic, comparison and
    string operators build new values and are modelled as functions on the
    `Coin` datatype; the checked attribute setters change an object in place
    and are modelled on the class `WizCoin`. */
module WizCoins {
  import opened Common

  /** The three counts of a WizCoin. */
  datatype Coin = Coin(galleons: int, sickles: int, knuts: int)

  /** The values a Python caller can hand to a setter or to `==`: what
      `isinstance` distinguishes, with the class name of anything else. */
  datatype PyValue = PyInt(i: int) | PyCoin(c: Coin) | PyOther(typeName: string)

  /** `value.__class__.__qualname__`. */
  function TypeName(v: PyValue): string {
    match v
    case PyInt(_) => "int"
    case PyCoin(_) => "WizCoin"
    case PyOther(name) => name
  }

  datatype WizCoinException = WizCoinException(message: string)

  /** The `total` property: the plain, unweighted sum of the three counts. */
  function Total(a: Coin): int {
    a.galleons + a.sickles + a.knuts
  }

  /** `len()` of a WizCoin: the same sum as `total`. */
  function Len(a: Coin): (r: int)
    ensures r == Total(a)
  {
    a.galleons + a.sickles + a.knuts
  }

  /** `a + b`: a new coin whose counts are the other's plus this one's. */
  function Add(a: Coin, b: Coin): Coin {
    Coin(b.galleons + a.galleons, b.sickles + a.sickles, b.knuts + a.knuts)
  }

  /** `a * k`: an exception for a negative k, otherwise every count times k. */
  function Mul(a: Coin, k: int): (r: Result<Coin, WizCoinException>)
    ensures r.Failure? <==> k < 0
    ensures r.Failure? ==> r.error == WizCoinException("Cannot multiply by negative integer.")
  {
    if k < 0 then Failure(WizCoinException("Cannot multiply by negative integer."))
    else Success(Coin(a.galleons * k, a.sickles * k, a.knuts * k))
  }

  /** `k * a`, which the class implements separately from `a * k`. */
  function RMul(k: int, a: Coin): (r: Result<Coin, WizCoinException>)
    ensures r.Failure? <==> k < 0
    ensures r.Failure? ==> r.error == WizCoinException("Cannot multiply by negative integer.")
    ensures r.Success? ==> r.value.galleons == k * a.galleons && r.value.sickles == k * a.sickles
                             && r.value.knuts == k * a.knuts
  {
    if k < 0 then Failure(WizCoinException("Cannot multiply by negative integer."))
    else Success(Coin(a.galleons * k, a.sickles * k, a.knuts * k))
  }

  /** `a == other`: false for anything that is not a WizCoin, otherwise all
      three counts agree. */
  function Eq(a: Coin, other: PyValue): bool {
    if !other.PyCoin? then false
    else a.galleons == other.c.galleons && a.sickles == other.c.sickles && a.knuts == other.c.knuts
  }

  /** `a != other`: true for anything that is not a WizCoin, otherwise false
      exactly when all three counts agree. */
  function Ne(a: Coin, other: PyValue): bool {
    if !other.PyCoin? then true
    else false == (a.galleons == other.c.galleons && a.sickles == other.c.sickles && a.knuts == other.c.knuts)
  }

  /** `str(a)`. */
  function Str(a: Coin): string {
    IntToString(a.galleons) + " galleons, " + IntToString(a.sickles) + " sickles, "
      + IntToString(a.knuts) + " knuts"
  }

  /** `repr(a)`: the expression that recreates the object. */
  function Repr(a: Coin): string {
    "WizCoin(" + IntToString(a.galleons) + ", " + IntToString(a.sickles) + ", "
      + IntToString(a.knuts) + ")"
  }

  /** The message every setter raises for a value that is not an int. */
  function NotAnIntMessage(v: PyValue): string {
    "Wizcoin ammount must be an int, but " + TypeName(v) + " was given."
  }

  /** What a setter does with a value: store any int as it is, negatives
      included, and raise for anything else. */
  function CheckAmount(v: PyValue): (r: Result<int, WizCoinException>)
    ensures r.Success? <==> v.PyInt?
    ensures r.Success? ==> r.value == v.i
    ensures r.Failure? ==> r.error.message == NotAnIntMessage(v)
  {
    if v.PyInt? then Success(v.i) else Failure(WizCoinException(NotAnIntMessage(v)))
  }

  // -----------------------------------------------------------------------
  // Laws of the operators

  lemma AddCommutes(a: Coin, b: Coin)
    ensures Add(a, b) == Add(b, a)
  {
  }

  lemma AddAssociates(a: Coin, b: Coin, c: Coin)
    ensures Add(Add(a, b), c) == Add(a, Add(b, c))
  {
  }

  /** The total of a sum is the sum of the totals. */
  lemma AddTotal(a: Coin, b: Coin)
    ensures Total(Add(a, b)) == Total(a) + Total(b)
  {
  }

  /** A coin with no money is the identity of `+`. */
  lemma AddZero(a: Coin)
    ensures Add(a, Coin(0, 0, 0)) == a && Add(Coin(0, 0, 0), a) == a
  {
  }

  /** `a * k` and `k * a` agree on every integer. */
  lemma MulIsRMul(a: Coin, k: int)
    ensures Mul(a, k) == RMul(k, a)
  {
  }

  lemma MulZero(a: Coin)
    ensures Mul(a, 0) == Success(Coin(0, 0, 0))
  {
  }

  lemma MulOne(a: Coin)
    ensures Mul(a, 1) == Success(a)
  {
  }

  /** Multiplying by k >= 0 multiplies the total by k. */
  lemma MulTotal(a: Coin, k: int)
    requires k >= 0
    ensures Mul(a, k).Success? && Total(Mul(a, k).value) == k * Total(a)
  {
    calc {
      Total(Mul(a, k).value);
      a.galleons * k + a.sickles * k + a.knuts * k;
      (a.galleons + a.sickles + a.knuts) * k;
    }
  }

  /** Multiplication by k >= 0 distributes over `+`. */
  lemma MulDistributes(a: Coin, b: Coin, k: int)
    requires k >= 0
    ensures Mul(Add(a, b), k) == Success(Add(Mul(a, k).value, Mul(b, k).value))
  {
    assert (b.galleons + a.galleons) * k == b.galleons * k + a.galleons * k;
    assert (b.sickles + a.sickles) * k == b.sickles * k + a.sickles * k;
    assert (b.knuts + a.knuts) * k == b.knuts * k + a.knuts * k;
  }

  /** Multiplying twice by non-negative factors is multiplying by their product. */
  lemma MulComposes(a: Coin, j: int, k: int)
    requires j >= 0 && k >= 0
    ensures Mul(Mul(a, j).value, k) == Mul(a, j * k)
  {
    assert a.galleons * j * k == a.galleons * (j * k);
    assert a.sickles * j * k == a.sickles * (j * k);
    assert a.knuts * j * k == a.knuts * (j * k);
  }

  /** `==` on a WizCoin is equality of the coins, and false otherwise. */
  lemma EqIsEquality(a: Coin, other: PyValue)
    ensures Eq(a, other) <==> other.PyCoin? && other.c == a
  {
  }

  /** `!=` is the negation of `==` on every value. */
  lemma NeIsNotEq(a: Coin, other: PyValue)
    ensures Ne(a, other) == !Eq(a, other)
  {
  }

  /** A numeral followed by a separator that starts with a non-numeral can be
      read back off the front of a string. */
  lemma PeelNumeral(x: string, y: string, sep: string, u: string, w: string)
    requires forall k :: 0 <= k < |x| ==> IsNumeral(x[k])
    requires forall k :: 0 <= k < |y| ==> IsNumeral(y[k])
    requires sep != [] && !IsNumeral(sep[0])
    requires x + (sep + u) == y + (sep + w)
    ensures x == y && u == w
  {
    NumeralPrefixUnique(x, y, sep + u, sep + w);
    assert u == (sep + u)[|sep|..];
    assert w == (sep + w)[|sep|..];
  }

  /** Three numerals, each followed by a separator that starts with a
      non-numeral, can be read back from their concatenation. */
  lemma PeelThreeNumerals(x1: string, x2: string, x3: string, y1: string, y2: string, y3: string,
                          s1: string, s2: string, s3: string)
    requires forall k :: 0 <= k < |x1| ==> IsNumeral(x1[k])
    requires forall k :: 0 <= k < |x2| ==> IsNumeral(x2[k])
    requires forall k :: 0 <= k < |x3| ==> IsNumeral(x3[k])
    requires forall k :: 0 <= k < |y1| ==> IsNumeral(y1[k])
    requires forall k :: 0 <= k < |y2| ==> IsNumeral(y2[k])
    requires forall k :: 0 <= k < |y3| ==> IsNumeral(y3[k])
    requires s1 != [] && !IsNumeral(s1[0]) && s2 != [] && !IsNumeral(s2[0]) && s3 != [] && !IsNumeral(s3[0])
    requires x1 + (s1 + (x2 + (s2 + (x3 + s3)))) == y1 + (s1 + (y2 + (s2 + (y3 + s3))))
    ensures x1 == y1 && x2 == y2 && x3 == y3
  {
    PeelNumeral(x1, y1, s1, x2 + (s2 + (x3 + s3)), y2 + (s2 + (y3 + s3)));
    PeelNumeral(x2, y2, s2, x3 + s3, y3 + s3);
    NumeralPrefixUnique(x3, y3, s3, s3);
  }

  lemma StrShape(a: Coin)
    ensures Str(a) == IntToString(a.galleons) + (" galleons, " + (IntToString(a.sickles)
                        + (" sickles, " + (IntToString(a.knuts) + " knuts"))))
  {
  }

  lemma ReprShape(a: Coin)
    ensures Repr(a)[8..] == IntToString(a.galleons) + (", " + (IntToString(a.sickles)
                              + (", " + (IntToString(a.knuts) + ")"))))
  {
  }

  /** Coins with equal `str()` are equal. */
  lemma StrInjective(a: Coin, b: Coin)
    requires Str(a) == Str(b)
    ensures a == b
  {
    StrShape(a);
    StrShape(b);
    PeelThreeNumerals(IntToString(a.galleons), IntToString(a.sickles), IntToString(a.knuts),
                      IntToString(b.galleons), IntToString(b.sickles), IntToString(b.knuts),
                      " galleons, ", " sickles, ", " knuts");
    IntToStringInjective(a.galleons, b.galleons);
    IntToStringInjective(a.sickles, b.sickles);
    IntToStringInjective(a.knuts, b.knuts);
  }

  /** Coins with equal `repr()` are equal: the representation recreates the
      coin it came from. */
  lemma ReprInjective(a: Coin, b: Coin)
    requires Repr(a) == Repr(b)
    ensures a == b
  {
    ReprShape(a);
    ReprShape(b);
    PeelThreeNumerals(IntToString(a.galleons), IntToString(a.sickles), IntToString(a.knuts),
                      IntToString(b.galleons), IntToString(b.sickles), IntToString(b.knuts),
                      ", ", ", ", ")");
    IntToStringInjective(a.galleons, b.galleons);
    IntToStringInjective(a.sickles, b.sickles);
    IntToStringInjective(a.knuts, b.knuts);
  }

  // -----------------------------------------------------------------------
  // The object and its checked setters

  class WizCoin {
    var galleons: int
    var sickles: int
    var knuts: int

    /** The coin this object currently holds. */
    function Value(): (c: Coin)
      reads this
      ensures c.galleons == galleons && c.sickles == sickles && c.knuts == knuts
    {
      Coin(galleons, sickles, knuts)
    }

    /** `WizCoin(g, s, k)` with three ints, stored as the setters would store
        them, since every int passes their check. */
    constructor(g: int, s: int, k: int)
      ensures Value() == Coin(g, s, k)
    {
      galleons, sickles, knuts := g, s, k;
    }

    /** `WizCoin(g, s, k)` with arbitrary values: the setters run in the order
        galleons, sickles, knuts, and the first value that is not an int
        raises. */
    static method Create(g: PyValue, s: PyValue, k: PyValue) returns (r: Result<WizCoin, WizCoinException>)
      ensures r.Success? <==> g.PyInt? && s.PyInt? && k.PyInt?
      ensures r.Success? ==> fresh(r.value) && r.value.Value() == Coin(g.i, s.i, k.i)
      ensures !g.PyInt? ==> r == Failure(WizCoinException(NotAnIntMessage(g)))
      ensures g.PyInt? && !s.PyInt? ==> r == Failure(WizCoinException(NotAnIntMessage(s)))
      ensures g.PyInt? && s.PyInt? && !k.PyInt? ==> r == Failure(WizCoinException(NotAnIntMessage(k)))
    {
      if !g.PyInt? {
        return Failure(WizCoinException(NotAnIntMessage(g)));
      }
      if !s.PyInt? {
        return Failure(WizCoinException(NotAnIntMessage(s)));
      }
      if !k.PyInt? {
        return Failure(WizCoinException(NotAnIntMessage(k)));
      }
      var w := new WizCoin(g.i, s.i, k.i);
      return Success(w);
    }

    /** The `galleons` setter: stores an int, raises for anything else and then
        leaves the field as it was. */
    method SetGalleons(v: PyValue) returns (r: Result<int, WizCoinException>)
      modifies this`galleons
      ensures r == CheckAmount(v)
      ensures galleons == if r.Success? then r.value else old(galleons)
    {
      r := CheckAmount(v);
      if r.Success? {
        galleons := r.value;
      }
    }

    /** The `sickles` setter, with the same check. */
    method SetSickles(v: PyValue) returns (r: Result<int, WizCoinException>)
      modifies this`sickles
      ensures r == CheckAmount(v)
      ensures sickles == if r.Success? then r.value else old(sickles)
    {
      r := CheckAmount(v);
      if r.Success? {
        sickles := r.value;
      }
    }

    /** The `knuts` setter, with the same check. */
    method SetKnuts(v: PyValue) returns (r: Result<int, WizCoinException>)
      modifies this`knuts
      ensures r == CheckAmount(v)
      ensures knuts == if r.Success? then r.value else old(knuts)
    {
      r := CheckAmount(v);
      if r.Success? {
        knuts := r.value;
      }
    }
  }
}
