/** String operations the enclosure analysis relies on: the three-way text
    comparison used to order the results, substring search, and the decimal
    rendering of a number inside a template literal. */
module Cadeia {

  /** Three-way comparison of two strings, character by character in code-point
      order: negative when `s` comes first, zero when equal, positive otherwise.
      This is how `localeCompare` is modelled (without locale collation). */
  function Compara(s: string, t: string): (c: int)
    ensures -1 <= c <= 1
  {
    if s == [] then (if t == [] then 0 else -1)
    else if t == [] then 1
    else if s[0] < t[0] then -1
    else if t[0] < s[0] then 1
    else Compara(s[1..], t[1..])
  }

  /** The comparison is zero exactly on equal strings. */
  lemma {:induction false} ComparaZero(s: string, t: string)
    ensures Compara(s, t) == 0 <==> s == t
  {
    if s != [] && t != [] && s[0] == t[0] {
      ComparaZero(s[1..], t[1..]);
      assert s == [s[0]] + s[1..] && t == [t[0]] + t[1..];
    }
  }

  /** Swapping the operands negates the comparison. */
  lemma {:induction false} ComparaAntissimetrica(s: string, t: string)
    ensures Compara(t, s) == -Compara(s, t)
  {
    if s != [] && t != [] && s[0] == t[0] {
      ComparaAntissimetrica(s[1..], t[1..]);
    }
  }

  /** "Comes no later than" is transitive. */
  lemma {:induction false} ComparaTransitiva(s: string, t: string, u: string)
    requires Compara(s, t) <= 0 && Compara(t, u) <= 0
    ensures Compara(s, u) <= 0
  {
    if s != [] && t != [] && u != [] && s[0] == t[0] == u[0] {
      ComparaTransitiva(s[1..], t[1..], u[1..]);
    }
  }

  /** A common prefix does not change the outcome of a comparison. */
  lemma {:induction false} ComparaPrefixoComum(p: string, s: string, t: string)
    ensures Compara(p + s, p + t) == Compara(s, t)
  {
    if p != [] {
      assert (p + s)[0] == p[0] == (p + t)[0];
      assert (p + s)[1..] == p[1..] + s;
      assert (p + t)[1..] == p[1..] + t;
      assert Compara(p + s, p + t) == Compara((p + s)[1..], (p + t)[1..]);
      ComparaPrefixoComum(p[1..], s, t);
    } else {
      assert p + s == s && p + t == t;
    }
  }

  /** `s.includes(t)`: `t` occurs in `s` as a contiguous substring. The
      first character of a contained text is a character of `s`. */
  function Contem(s: string, t: string): (b: bool)
  {
    t <= s || (s != [] && Contem(s[1..], t))
  }

  /** When `t` occurs in `s`, some position of `s` starts with `t`. */
  lemma {:induction false} ContemPosicao(s: string, t: string) returns (i: nat)
    requires Contem(s, t)
    ensures i <= |s| && t <= s[i..]
  {
    if t <= s {
      i := 0;
    } else {
      var k := ContemPosicao(s[1..], t);
      assert s[1..][k..] == s[k + 1..];
      i := k + 1;
    }
  }

  /** Conversely, `t` starting at any position of `s` makes Contem hold. */
  lemma {:induction false} ContemEmPosicao(s: string, t: string, i: nat)
    requires i <= |s| && t <= s[i..]
    ensures Contem(s, t)
  {
    if i > 0 {
      assert s[1..][i - 1..] == s[i..];
      ContemEmPosicao(s[1..], t, i - 1);
    }
  }

  /** A string never contains a longer one. */
  lemma {:induction false} ContemComprimento(s: string, t: string)
    requires |s| < |t|
    ensures !Contem(s, t)
  {
    if s != [] {
      ContemComprimento(s[1..], t);
    }
  }

  /** A string never contains one with a character it lacks. */
  lemma {:induction false} ContemCaractere(s: string, t: string, c: char)
    requires c in t && c !in s
    ensures !Contem(s, t)
  {
    if s != [] {
      assert c !in s[1..];
      ContemCaractere(s[1..], t, c);
    }
  }

  /** The character of a decimal digit. */
  function Digito(d: nat): char
    requires d < 10
  {
    ('0' as int + d) as char
  }

  /** Decimal rendering of a non-negative integer, as `${n}` produces it:
      never empty, and without leading zeros. */
  function Decimal(n: nat): (s: string)
    ensures |s| > 0
    ensures s[0] == '0' ==> n == 0
    ensures |s| == 1 || s[0] != '0'
  {
    if n < 10 then [Digito(n)] else Decimal(n / 10) + [Digito(n % 10)]
  }

  /** Value of a string of decimal digits, the inverse of Decimal. */
  function ValorDecimal(s: string): int
  {
    if s == [] then 0 else 10 * ValorDecimal(s[..|s| - 1]) + (s[|s| - 1] as int - '0' as int)
  }

  /** Reading back the decimal rendering gives the number. */
  lemma {:induction false} DecimalIdaEVolta(n: nat)
    ensures ValorDecimal(Decimal(n)) == n
  {
    if n >= 10 {
      var s := Decimal(n);
      assert s[..|s| - 1] == Decimal(n / 10);
      DecimalIdaEVolta(n / 10);
      assert n == 10 * (n / 10) + n % 10;
    }
  }
}
