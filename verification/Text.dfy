/** Printing numbers, splitting and joining text. */
module Text {
  datatype Base = Ten | Sixteen

  function Quotient(n: nat, base: Base): nat {
    if base.Ten? then n / 10 else n / 16
  }

  function Remainder(n: nat, base: Base): nat {
    if base.Ten? then n % 10 else n % 16
  }

  function Scaled(high: nat, low: nat, base: Base): nat {
    (if base.Ten? then high * 10 else high * 16) + low
  }

  function Digit(d: nat): char {
    if d < 10 then ('0' as int + d) as char else if d < 16 then ('a' as int + d - 10) as char else '?'
  }

  /** Digits of n without leading zeros, as `{}` (base ten) and `{:x}` (base sixteen) print them. */
  function Digits(n: nat, base: Base): (s: string) {
    if Quotient(n, base) == 0 then [Digit(n)] else Digits(Quotient(n, base), base) + [Digit(Remainder(n, base))]
  }

  function Decimal(n: nat): (s: string) {
    Digits(n, Ten)
  }

  function DigitValue(c: char, base: Base): int {
    if '0' <= c <= '9' then c as int - '0' as int
    else if base.Sixteen? && 'a' <= c <= 'f' then c as int - 'a' as int + 10
    else if base.Sixteen? && 'A' <= c <= 'F' then c as int - 'A' as int + 10
    else -1
  }

  /** The number a digit string stands for; -1 when some character is not a digit. */
  function Value(s: string, base: Base): int {
    if s == [] then 0
    else
      var high := Value(s[..|s| - 1], base);
      var low := DigitValue(s[|s| - 1], base);
      if high < 0 || low < 0 then -1 else Scaled(high, low, base)
  }

  lemma {:induction false} ValueOfDigits(n: nat, base: Base)
    ensures Value(Digits(n, base), base) == n && Digits(n, base) != []
    decreases n
  {
    var s := Digits(n, base);
    var q := Quotient(n, base);
    assert n == Scaled(q, Remainder(n, base), base);
    if q != 0 {
      ValueOfDigits(q, base);
      assert s[..|s| - 1] == Digits(q, base);
      assert DigitValue(Digit(Remainder(n, base)), base) == Remainder(n, base);
    } else {
      assert s[..|s| - 1] == [];
      assert DigitValue(Digit(n), base) == n;
    }
  }

  /** Printed numbers hold digits only, so no separator can occur inside one. */
  lemma {:induction false} DigitsAreDigits(n: nat, base: Base)
    ensures forall c :: c in Digits(n, base) ==> DigitValue(c, base) >= 0
    decreases n
  {
    if Quotient(n, base) != 0 {
      DigitsAreDigits(Quotient(n, base), base);
    }
  }

  function Zeros(n: nat): (s: string)
    ensures |s| == n && forall c :: c in s ==> c == '0'
  {
    seq(n, i => '0')
  }

  /** Printing in at least `width` digits, with leading zeros. */
  function Padded(n: nat, width: nat, base: Base): string {
    var digits := Digits(n, base);
    if |digits| < width then Zeros(width - |digits|) + digits else digits
  }

  lemma DecimalInjective(m: nat, n: nat)
    requires Decimal(m) == Decimal(n)
    ensures m == n
  {
    ValueOfDigits(m, Ten);
    ValueOfDigits(n, Ten);
  }

  // ----- Splitting and joining

  /** `str::split` on any of the separators; there is always at least one part. */
  function Split(s: string, seps: set<char>): (parts: seq<string>)
    ensures parts != []
  {
    if s == [] then [[]]
    else
      var parts := Split(s[1..], seps);
      if s[0] in seps then [[]] + parts else [[s[0]] + parts[0]] + parts[1..]
  }

  predicate Free(s: string, seps: set<char>) {
    forall c :: c in s ==> c !in seps
  }

  lemma {:induction false} SplitFirst(a: string, sep: char, rest: string, seps: set<char>)
    requires Free(a, seps) && sep in seps
    ensures Split(a, seps) == [a]
    ensures Split(a + [sep] + rest, seps) == [a] + Split(rest, seps)
  {
    var whole := a + [sep] + rest;
    if a == [] {
      assert whole[1..] == rest;
    } else {
      SplitFirst(a[1..], sep, rest, seps);
      assert a[0] in a;
      assert whole[1..] == a[1..] + [sep] + rest;
      assert [a[0]] + a[1..] == a;
    }
  }

  /** `join("/")`. */
  function Join(parts: seq<string>): string {
    if parts == [] then "" else if |parts| == 1 then parts[0] else parts[0] + "/" + Join(parts[1..])
  }

  lemma {:induction false} SplitOfJoin(parts: seq<string>, seps: set<char>)
    requires parts != [] && '/' in seps && forall p :: p in parts ==> Free(p, seps)
    ensures Split(Join(parts), seps) == parts
  {
    SplitFirst(parts[0], '/', Join(parts[1..]), seps);
    if |parts| > 1 {
      SplitOfJoin(parts[1..], seps);
      assert parts == [parts[0]] + parts[1..];
    } else {
      assert parts == [parts[0]];
    }
  }
}
