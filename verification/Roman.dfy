/** The Roman numeral conversion of formatted printing. */
module Roman {
  import opened Common

  /** The symbols, largest first, and the values they stand for. */
  function Sym(k: nat, caps: bool): char
    requires k <= 6
  {
    if caps then "MDCLXVI"[k] else "mdclxvi"[k]
  }

  function Unit(k: nat): (v: nat)
    requires k <= 6
    ensures v > 0
  {
    [1000, 500, 100, 50, 10, 5, 1][k]
  }

  /** What the symbol table says each value is divided by to get the next. */
  function Divisor(k: nat): (d: nat)
    requires k < 6
    ensures Unit(k) == d * Unit(k + 1)
  {
    if k % 2 == 0 then 2 else 5
  }

  /** Which symbol may stand before symbol `k` to be subtracted. */
  function Before(k: nat): (j: nat)
    requires k < 6
    ensures k < j <= 6 && 2 * Unit(j) < Unit(k)
  {
    if k % 2 == 0 then k + 2 else k + 1
  }

  // ----- reading -----

  function Value(c: char): nat {
    match c
    case 'M' | 'm' => 1000
    case 'D' | 'd' => 500
    case 'C' | 'c' => 100
    case 'L' | 'l' => 50
    case 'X' | 'x' => 10
    case 'V' | 'v' => 5
    case 'I' | 'i' => 1
    case _ => 0
  }

  /** The usual rule: add the symbols up, but subtract one that stands before a larger one. */
  function Read(s: string): int
    decreases |s|
  {
    if s == [] then 0 else
      var n := |s| - 1;
      Read(s[..n]) + Value(s[n]) - (if n > 0 && Value(s[n - 1]) < Value(s[n]) then 2 * Value(s[n - 1]) else 0)
  }

  // ----- the numeral as it is taught: thousands, then a group for each digit -----

  /** A decimal digit, given the symbols for one, five and ten. */
  function Group(d: nat, one: char, five: char, ten: char): string
    requires d < 10
  {
    if d == 9 then [one, ten]
    else if d >= 5 then [five] + Repeat(one, d - 5)
    else if d == 4 then [one, five]
    else Repeat(one, d)
  }

  /** The groups below symbol `k`, for a number less than its value. */
  function Groups(k: nat, n: nat, caps: bool): string
    requires k <= 6 && k % 2 == 0 && n < Unit(k)
    decreases 6 - k
  {
    if k == 6 then [] else
      var w := Unit(k + 2);
      Group(n / w, Sym(k + 2, caps), Sym(k + 1, caps), Sym(k, caps)) + Groups(k + 2, n % w, caps)
  }

  function Numeral(n: nat, caps: bool): string {
    Repeat(Sym(0, caps), n / 1000) + Groups(0, n % 1000, caps)
  }

  // ----- what the loop writes from a state on -----

  /** The rest of the text when the loop is at symbol `k` with `n` left. */
  ghost function Rest(k: nat, n: nat, caps: bool): string
    requires k <= 6
    decreases 6 - k, n
  {
    if n >= Unit(k) then [Sym(k, caps)] + Rest(k, n - Unit(k), caps)
    else if n == 0 then []
    else if n + Unit(Before(k)) >= Unit(k) then
      [Sym(Before(k), caps), Sym(k, caps)] + Rest(k, n + Unit(Before(k)) - Unit(k), caps)
    else Rest(k + 1, n, caps)
  }

  lemma {:induction false} RepeatMore(c: char, n: nat)
    requires n > 0
    ensures Repeat(c, n) == [c] + Repeat(c, n - 1) == Repeat(c, n - 1) + [c]
  {
  }

  lemma {:induction false} Multiples(c: nat, v: nat, m: nat)
    requires c > 0
    ensures c * v + m == (c - 1) * v + m + v && (c - 1) * v + m >= 0
  {
  }

  /** `c` times a value, by repeated addition. */
  ghost function Times(c: nat, v: nat): nat {
    if c == 0 then 0 else Times(c - 1, v) + v
  }

  lemma {:induction false} TimesIsProduct(c: nat, v: nat)
    ensures Times(c, v) == c * v
  {
    if c > 0 {
      TimesIsProduct(c - 1, v);
      Multiples(c, v, 0);
    }
  }

  lemma {:induction false} RestRepeats(k: nat, c: nat, m: nat, caps: bool)
    requires k <= 6 && m < Unit(k)
    ensures Rest(k, Times(c, Unit(k)) + m, caps) == Repeat(Sym(k, caps), c) + Rest(k, m, caps)
    decreases c
  {
    hide Unit, Sym, Repeat;
    if c > 0 {
      RestRepeats(k, c - 1, m, caps);
      assert Rest(k, Times(c, Unit(k)) + m, caps) == [Sym(k, caps)] + Rest(k, Times(c - 1, Unit(k)) + m, caps);
      hide Rest;
      RepeatMore(Sym(k, caps), c);
    } else {
      assert Repeat(Sym(k, caps), 0) + Rest(k, m, caps) == Rest(k, m, caps);
    }
  }

  /** Values of a decade's symbols. */
  lemma {:induction false} Decade(k: nat)
    requires k < 6 && k % 2 == 0
    ensures Unit(k) == 10 * Unit(k + 2) && Unit(k + 1) == 5 * Unit(k + 2) && Before(k) == Before(k + 1) == k + 2
  {
  }

  lemma {:induction false} RestBelowFour(k: nat, n: nat, caps: bool)
    requires k < 6 && k % 2 == 0 && n < 4 * Unit(k + 2)
    ensures Rest(k, n, caps) == Rest(k + 1, n, caps) == Rest(k + 2, n, caps)
  {
    Decade(k);
    hide Unit, Before;
  }

  lemma {:induction false} DigitBounds(d: nat, m: nat, w: nat)
    requires m < w && d < 10
    ensures d == 9 ==> 9 * w <= Times(d, w) + m < 10 * w && Times(d, w) + m - 9 * w == m
    ensures 5 <= d < 9 ==> 5 * w <= Times(d, w) + m < 9 * w && Times(d, w) + m - 5 * w == Times(d - 5, w) + m < 4 * w
    ensures d == 4 ==> 4 * w <= Times(d, w) + m < 5 * w && Times(d, w) + m - 4 * w == m
    ensures d < 4 ==> Times(d, w) + m < 4 * w
  {
    TimesIsProduct(d, w);
    if d >= 5 { TimesIsProduct(d - 5, w); }
    hide Times;
  }

  /** At a decade's first symbol, with less than its value left, the loop writes one digit's
      group and goes on to the next decade. */
  lemma {:induction false} RestDigit(k: nat, d: nat, m: nat, caps: bool)
    requires k < 6 && k % 2 == 0 && m < Unit(k + 2) && d < 10
    ensures Rest(k, Times(d, Unit(k + 2)) + m, caps) ==
            Group(d, Sym(k + 2, caps), Sym(k + 1, caps), Sym(k, caps)) + Rest(k + 2, m, caps)
  {
    hide Unit, Sym, Rest, Times, Repeat;
    var w := Unit(k + 2);
    DigitBounds(d, m, w);
    RestBelowFour(k, m, caps);
    if d == 9 {
      RestNine(k, Times(d, w) + m, caps);
    } else if d >= 5 {
      RestFive(k, Times(d, w) + m, caps);
      RestBelowFour(k, Times(d - 5, w) + m, caps);
      RestRepeats(k + 2, d - 5, m, caps);
      assert [Sym(k + 1, caps)] + (Repeat(Sym(k + 2, caps), d - 5) + Rest(k + 2, m, caps)) ==
        [Sym(k + 1, caps)] + Repeat(Sym(k + 2, caps), d - 5) + Rest(k + 2, m, caps);
    } else if d == 4 {
      RestFour(k, Times(d, w) + m, caps);
    } else {
      RestBelowFour(k, Times(d, w) + m, caps);
      RestRepeats(k + 2, d, m, caps);
    }
  }

  lemma {:induction false} RestNine(k: nat, n: nat, caps: bool)
    requires k < 6 && k % 2 == 0 && 9 * Unit(k + 2) <= n < 10 * Unit(k + 2)
    ensures Rest(k, n, caps) == [Sym(k + 2, caps), Sym(k, caps)] + Rest(k, n - 9 * Unit(k + 2), caps)
  {
    Decade(k);
    hide Unit, Before, Sym;
  }

  lemma {:induction false} RestFive(k: nat, n: nat, caps: bool)
    requires k < 6 && k % 2 == 0 && 5 * Unit(k + 2) <= n < 9 * Unit(k + 2)
    ensures Rest(k, n, caps) == [Sym(k + 1, caps)] + Rest(k + 1, n - 5 * Unit(k + 2), caps)
  {
    Decade(k);
    hide Unit, Before, Sym;
  }

  lemma {:induction false} RestFour(k: nat, n: nat, caps: bool)
    requires k < 6 && k % 2 == 0 && 4 * Unit(k + 2) <= n < 5 * Unit(k + 2)
    ensures Rest(k, n, caps) == [Sym(k + 2, caps), Sym(k + 1, caps)] + Rest(k + 1, n - 4 * Unit(k + 2), caps)
  {
    Decade(k);
    hide Unit, Before, Sym;
  }

  lemma {:induction false} DigitOf(n: nat, w: nat)
    requires 0 < w && n < 10 * w
    ensures n / w < 10 && n % w < w && n == n / w * w + n % w
  {
    var d := n / w;
    assert n == d * w + n % w;
  }

  lemma {:induction false} RestGroups(k: nat, n: nat, caps: bool)
    requires k <= 6 && k % 2 == 0 && n < Unit(k)
    ensures Rest(k, n, caps) == Groups(k, n, caps)
    decreases 6 - k
  {
    if k < 6 {
      Decade(k);
      var w := Unit(k + 2);
      DigitOf(n, w);
      TimesIsProduct(n / w, w);
      RestDigit(k, n / w, n % w, caps);
      RestGroups(k + 2, n % w, caps);
      hide Unit, Rest, Sym;
    }
  }

  /** What the loop writes is the numeral as it is taught. */
  lemma {:induction false} RestIsNumeral(n: nat, caps: bool)
    ensures Rest(0, n, caps) == Numeral(n, caps)
  {
    assert n == n / 1000 * 1000 + n % 1000 && Unit(0) == 1000;
    TimesIsProduct(n / 1000, 1000);
    RestRepeats(0, n / 1000, n % 1000, caps);
    RestGroups(0, n % 1000, caps);
  }

  // ----- reading a numeral back -----

  lemma {:induction false} ReadAppend(a: string, b: string)
    requires a == [] || b == [] || Value(a[|a| - 1]) >= Value(b[0])
    ensures Read(a + b) == Read(a) + Read(b)
    decreases |b|
  {
    if b == [] {
      assert a + b == a;
    } else {
      var n := |b| - 1;
      ReadAppend(a, b[..n]);
      assert (a + b)[..|a + b| - 1] == a + b[..n];
      hide Value;
    }
  }

  lemma {:induction false} ReadRepeat(c: char, n: nat)
    ensures Read(Repeat(c, n)) == n * Value(c)
    decreases n
  {
    hide Value;
    if n > 0 {
      ReadRepeat(c, n - 1);
      Multiples(n, Value(c), 0);
      assert Repeat(c, n)[..n - 1] == Repeat(c, n - 1);
    }
  }

  lemma {:induction false} ReadOne(c: char)
    ensures Read([c]) == Value(c)
  {
    hide Value;
    assert [c][..0] == [];
  }

  lemma {:induction false} ReadPair(c: char, high: char)
    requires Value(c) < Value(high)
    ensures Read([c, high]) == Value(high) - Value(c)
  {
    ReadOne(c);
    hide Value;
    assert [c, high][..1] == [c];
  }

  lemma {:induction false} ReadGroup(d: nat, one: char, five: char, ten: char)
    requires d < 10 && 0 < Value(one) && Value(five) == 5 * Value(one) && Value(ten) == 10 * Value(one)
    ensures var g := Group(d, one, five, ten);
            && Read(g) == d * Value(one) && (g != [] ==> Value(g[0]) <= Value(five) && Value(g[|g| - 1]) >= Value(one))
            && |g| <= 4
  {
    hide Value;
    if d == 9 || d == 4 {
      ReadPair(one, if d == 9 then ten else five);
    } else if d >= 5 {
      ReadRepeat(one, d - 5);
      ReadAppend([five], Repeat(one, d - 5));
      ReadOne(five);
    } else {
      ReadRepeat(one, d);
    }
  }

  lemma {:induction false} SymValue(k: nat, caps: bool)
    requires k <= 6
    ensures Value(Sym(k, caps)) == Unit(k)
  {
  }

  lemma {:induction false} ReadGroups(k: nat, n: nat, caps: bool)
    requires k <= 6 && k % 2 == 0 && n < Unit(k)
    ensures var g := Groups(k, n, caps);
            Read(g) == n && (g != [] ==> Value(g[0]) < Unit(k)) && |g| <= 2 * (6 - k)
    decreases 6 - k
  {
    if k < 6 {
      var w := Unit(k + 2);
      Decade(k);
      hide Unit, Sym, Value, Read;
      DigitOf(n, w);
      ReadGroups(k + 2, n % w, caps);
      ReadDigit(k, n / w, caps);
      hide Group;
      ReadAppend(Group(n / w, Sym(k + 2, caps), Sym(k + 1, caps), Sym(k, caps)), Groups(k + 2, n % w, caps));
    }
  }

  /** One digit's group, in its decade. */
  lemma {:induction false} ReadDigit(k: nat, d: nat, caps: bool)
    requires k < 6 && k % 2 == 0 && d < 10
    ensures var g := Group(d, Sym(k + 2, caps), Sym(k + 1, caps), Sym(k, caps));
            && Read(g) == d * Unit(k + 2) && |g| <= 4
            && (g != [] ==> Value(g[0]) < Unit(k) && Value(g[|g| - 1]) >= Unit(k + 2))
  {
    Decade(k);
    SymValue(k, caps);
    SymValue(k + 1, caps);
    SymValue(k + 2, caps);
    hide Unit, Sym, Value, Group, Read;
    ReadGroup(d, Sym(k + 2, caps), Sym(k + 1, caps), Sym(k, caps));
  }

  /** A numeral read by the usual rule is the number it was made from, so no two numbers
      share one; it is no longer than its thousands and twelve symbols more. */
  lemma {:induction false} ReadBack(n: nat, caps: bool)
    ensures Read(Numeral(n, caps)) == n && |Numeral(n, caps)| <= n / 1000 + 12
  {
    assert Unit(0) == 1000;
    SymValue(0, caps);
    hide Unit, Sym, Value, Read, Groups;
    ReadGroups(0, n % 1000, caps);
    ReadRepeat(Sym(0, caps), n / 1000);
    ReadAppend(Repeat(Sym(0, caps), n / 1000), Groups(0, n % 1000, caps));
  }

  ghost predicate Cased(s: string, caps: bool) {
    forall i :: 0 <= i < |s| ==> if caps then 'A' <= s[i] <= 'Z' else 'a' <= s[i] <= 'z'
  }

  lemma {:induction false} SymCased(k: nat, caps: bool)
    requires k <= 6
    ensures Cased([Sym(k, caps)], caps)
  {
  }

  lemma {:induction false} GroupCased(d: nat, one: char, five: char, ten: char, caps: bool)
    requires d < 10 && Cased([one], caps) && Cased([five], caps) && Cased([ten], caps)
    ensures Cased(Group(d, one, five, ten), caps)
  {
    assert [one][0] == one && [five][0] == five && [ten][0] == ten;
  }

  lemma {:induction false} GroupsCased(k: nat, n: nat, caps: bool)
    requires k <= 6 && k % 2 == 0 && n < Unit(k)
    ensures Cased(Groups(k, n, caps), caps)
    decreases 6 - k
  {
    if k < 6 {
      var w := Unit(k + 2);
      SymCased(k, caps);
      SymCased(k + 1, caps);
      SymCased(k + 2, caps);
      Decade(k);
      DigitOf(n, w);
      hide Sym, Unit, Group;
      GroupCased(n / w, Sym(k + 2, caps), Sym(k + 1, caps), Sym(k, caps), caps);
      GroupsCased(k + 2, n % w, caps);
    }
  }

  /** Capitals exactly when asked for. */
  lemma {:induction false} NumeralCased(n: nat, caps: bool)
    ensures Cased(Numeral(n, caps), caps)
  {
    SymCased(0, caps);
    assert [Sym(0, caps)][0] == Sym(0, caps);
    hide Sym, Groups;
    GroupsCased(0, n % 1000, caps);
  }

  // ----- the code -----

  const ABORTIVE := "[abortive Roman numeral]"

  /** The text for `x`: a sign, and the numeral of its magnitude. */
  ghost function Text(x: int, caps: bool): string {
    if x < 0 then "-" + Numeral(-x, caps) else Numeral(x, caps)
  }

  /** Writes the numeral into a buffer of `bufsiz` characters, ends it with a null and
      returns a copy. Magnitudes from half the buffer size times 1000 on are refused. */
  method Ctor(x: int, caps: bool, bufsiz: nat) returns (s: string)
    requires -INT_LIMIT <= x < INT_LIMIT && 256 <= bufsiz && 1000 * bufsiz < INT_LIMIT
    ensures var magnitude := if x < 0 then -x else x;
            s == if magnitude >= 500 * bufsiz then ABORTIVE else Text(x, caps)
  {
    var buf := new char[bufsiz];
    var o, n := Sign(buf, x);
    var v := 1000;
    CutOffIs(bufsiz);
    hide Text, CutOff, Rest;
    if n >= CutOff(v, bufsiz) { return ABORTIVE; }
    TextFits(x, caps, bufsiz);
    o := Write(buf, o, n, caps, Text(x, caps));
    s := Finish(buf, o);
  }

  /** The sign, and the magnitude as an unsigned number. */
  method Sign(buf: array<char>, x: int) returns (o: nat, n: int)
    requires buf.Length > 1 && -INT_LIMIT <= x < INT_LIMIT
    modifies buf
    ensures n == (if x < 0 then -x else x) && o <= 1 && buf[..o] == if x < 0 then "-" else ""
  {
    o, n := 0, Unsigned(x);
    if n >= INT_LIMIT {
      buf[o] := '-';
      o, n := o + 1, Unsigned(-n);
    }
  }

  method Finish(buf: array<char>, o: nat) returns (s: string)
    requires o < buf.Length
    modifies buf
    ensures s == old(buf[..o])
  {
    buf[o] := '\0';
    s := buf[..o];
  }

  function CutOff(v: nat, bufsiz: nat): nat {
    v * bufsiz / 2
  }

  lemma {:induction false} CutOffIs(bufsiz: nat)
    ensures CutOff(1000, bufsiz) == 500 * bufsiz
  {
  }

  lemma {:induction false} TextFits(x: int, caps: bool, bufsiz: nat)
    requires bufsiz >= 256 && (if x < 0 then -x else x) < 500 * bufsiz
    ensures |Text(x, caps)| < bufsiz
    ensures Text(x, caps) == if x < 0 then "-" + Rest(0, -x, caps) else "" + Rest(0, x, caps)
  {
    hide Rest, Numeral;
    var n := if x < 0 then -x else x;
    RestIsNumeral(n, caps);
    NumeralFits(n, caps, bufsiz);
    assert "" + Rest(0, n, caps) == Rest(0, n, caps);
  }

  lemma {:induction false} NumeralFits(n: nat, caps: bool, bufsiz: nat)
    requires bufsiz >= 256 && n < 500 * bufsiz
    ensures 1 + |Numeral(n, caps)| < bufsiz
  {
    ReadBack(n, caps);
    hide Numeral;
    Fits(n, bufsiz);
  }

  /** A number as a 32-bit unsigned one. */
  function Unsigned(x: int): (n: nat)
    requires -2 * INT_LIMIT <= x < 2 * INT_LIMIT
  {
    if x >= 0 then x else x + 2 * INT_LIMIT
  }

  lemma {:induction false} Fits(n: nat, bufsiz: nat)
    requires n < 500 * bufsiz && bufsiz >= 256
    ensures 1 + n / 1000 + 12 < bufsiz
  {
  }

  /** The loop, from symbol to symbol. */
  method Write(buf: array<char>, start: nat, number: nat, caps: bool, ghost text: string) returns (o: nat)
    requires start <= |text| < buf.Length && text == buf[..start] + Rest(0, number, caps)
    modifies buf
    ensures o == |text| && buf[..o] == text
  {
    hide Rest, Sym;
    var k: nat, n: nat := 0, number;
    var v := 1000;
    o := start;
    while true
      invariant k <= 6 && v == Unit(k) && o <= |text| && text == buf[..o] + Rest(k, n, caps)
      decreases 6 - k, |text| - o
    {
      o, n := WriteSymbol(buf, o, n, k, caps, text);
      RestStep(k, n, caps);
      if n == 0 { break; }
      var j := k;
      var u := v / Divisor(j);
      if Divisor(j) == 2 {
        j := j + 1;
        u := u / Divisor(j);
      }
      assert j + 1 == Before(k) && u == Unit(j + 1);
      if n + u >= v {
        o := Put(buf, o, Sym(j + 1, caps), text, Rest(k, n + u, caps));
        n := n + u;
      } else {
        v := v / Divisor(k);
        k := k + 1;
      }
    }
  }

  /** Appends a character that the text has next. */
  method Put(buf: array<char>, o: nat, c: char, ghost text: string, ghost rest: string) returns (r: nat)
    requires o <= |text| < buf.Length && text == buf[..o] + ([c] + rest)
    modifies buf
    ensures r == o + 1 <= |text| && text == buf[..r] + rest
  {
    buf[o] := c;
    r := o + 1;
    assert buf[..r] == old(buf[..o]) + [c];
  }

  /** Writes symbol `k` as often as its value fits. */
  method WriteSymbol(buf: array<char>, start: nat, number: nat, k: nat, caps: bool, ghost text: string)
    returns (o: nat, n: nat)
    requires k <= 6 && start <= |text| < buf.Length && text == buf[..start] + Rest(k, number, caps)
    modifies buf
    ensures n < Unit(k) && start <= o <= |text| && text == buf[..o] + Rest(k, n, caps)
  {
    hide Rest, Sym, Unit;
    o, n := start, number;
    while n >= Unit(k)
      invariant start <= o <= |text| && text == buf[..o] + Rest(k, n, caps)
    {
      RestStep(k, n, caps);
      o := Put(buf, o, Sym(k, caps), text, Rest(k, n - Unit(k), caps));
      n := n - Unit(k);
    }
  }

  lemma {:induction false} RestStep(k: nat, n: nat, caps: bool)
    requires k <= 6
    ensures n >= Unit(k) ==> Rest(k, n, caps) == [Sym(k, caps)] + Rest(k, n - Unit(k), caps)
    ensures n == 0 ==> Rest(k, n, caps) == []
    ensures 0 < n < Unit(k) ==> k < 6
    ensures 0 < n < Unit(k) && n + Unit(Before(k)) >= Unit(k) ==>
              Rest(k, n, caps) == [Sym(Before(k), caps)] + Rest(k, n + Unit(Before(k)), caps)
    ensures 0 < n < Unit(k) && n + Unit(Before(k)) < Unit(k) ==> Rest(k, n, caps) == Rest(k + 1, n, caps)
  {
    hide Sym;
    if 0 < n < Unit(k) && n + Unit(Before(k)) >= Unit(k) {
      var j := Before(k);
      assert Rest(k, n + Unit(j), caps) == [Sym(k, caps)] + Rest(k, n + Unit(j) - Unit(k), caps);
    }
  }
}
