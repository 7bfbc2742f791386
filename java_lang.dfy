/**
 * The few pieces of the Java standard library that the modelled code relies on,
 * written out with Java's semantics: `int` division (truncating toward zero),
 * `Integer.parseInt`/`Integer.valueOf` (radix 10, 32-bit range), `String.split`
 * with a one-character separator and the default limit, and `String.contains`.
 */
module JavaLang {
  import opened Wrappers

  const MinInt: int := -0x8000_0000
  const MaxInt: int := 0x7fff_ffff

  /** Java's `a / b` on `int`: the quotient is truncated toward zero. */
  function Div(a: int, b: int): (q: int)
    requires b > 0
    ensures a >= 0 ==> q * b <= a < q * b + b
    ensures a < 0 ==> q * b - b < a <= q * b
  {
    if a >= 0 then a / b else -((-a) / b)
  }

  predicate IsDigit(c: char) {
    '0' <= c <= '9'
  }

  predicate AllDigits(s: string) {
    forall i :: 0 <= i < |s| ==> IsDigit(s[i])
  }

  /** The value of a string of decimal digits, most significant first. */
  function DigitsValue(s: string): nat
    requires AllDigits(s)
  {
    if |s| == 0 then 0
    else DigitsValue(s[..|s| - 1]) * 10 + (s[|s| - 1] as int - '0' as int)
  }

  /**
   * `Integer.parseInt(s)`: an optional sign, then at least one digit, and the value
   * must fit in 32 bits; anything else raises `NumberFormatException` (here `None`).
   */
  function ParseInt(s: string): (r: Option<int>)
    ensures r.Some? ==> MinInt <= r.value <= MaxInt
    ensures r.Some? ==> |s| > 0
  {
    if |s| == 0 then None
    else
      var body := if s[0] == '-' || s[0] == '+' then s[1..] else s;
      if |body| == 0 || !AllDigits(body) then None
      else
        var d: int := DigitsValue(body);
        var v := if s[0] == '-' then -d else d;
        if MinInt <= v <= MaxInt then Some(v) else None
  }

  /** The decimal digits of a natural number, as `Integer.toString` writes them. */
  function NatToString(n: nat): string {
    if n < 10 then ['0' + n as char]
    else NatToString(n / 10) + ['0' + (n % 10) as char]
  }

  /** `Integer.toString(n)`. */
  function IntToString(n: int): string {
    if n < 0 then "-" + NatToString(-n) else NatToString(n)
  }

  lemma {:induction false} NatToStringValue(n: nat)
    ensures |NatToString(n)| > 0 && AllDigits(NatToString(n))
    ensures DigitsValue(NatToString(n)) == n
  {
    if n >= 10 {
      NatToStringValue(n / 10);
      var s := NatToString(n);
      assert s[..|s| - 1] == NatToString(n / 10);
    }
  }

  /** Parsing what `Integer.toString` printed gives back the number, for every 32-bit value. */
  lemma ParseIntOfToString(n: int)
    requires MinInt <= n <= MaxInt
    ensures ParseInt(IntToString(n)) == Some(n)
  {
    var s := IntToString(n);
    if n < 0 {
      NatToStringValue(-n);
      assert s[0] == '-' && s[1..] == NatToString(-n);
    } else {
      NatToStringValue(n);
      assert IsDigit(s[0]);
    }
  }

  /** A character that is neither a digit nor a leading sign makes `parseInt` fail. */
  lemma ParseIntRejectsNonDigit(s: string, i: int)
    requires 0 <= i < |s| && !IsDigit(s[i])
    requires i > 0 || (s[0] != '-' && s[0] != '+')
    ensures ParseInt(s).None?
  {
    if s[0] == '-' || s[0] == '+' {
      assert s[1..][i - 1] == s[i];
    }
  }

  /** Concatenation of the pieces with the separator between consecutive ones. */
  function Join(pieces: seq<string>, sep: char): string
    requires |pieces| > 0
  {
    if |pieces| == 1 then pieces[0]
    else pieces[0] + [sep] + Join(pieces[1..], sep)
  }

  /** Every piece of `s` between separators, empty ones included. */
  function Pieces(s: string, sep: char): (r: seq<string>)
    ensures |r| > 0
    ensures Join(r, sep) == s
    ensures forall k :: 0 <= k < |r| ==> sep !in r[k]
  {
    if |s| == 0 then [""]
    else
      var rest := Pieces(s[1..], sep);
      if s[0] == sep then
        assert ([""] + rest)[1..] == rest;
        [""] + rest
      else
        var r := [[s[0]] + rest[0]] + rest[1..];
        assert r[1..] == rest[1..];
        assert Join(r, sep) == [s[0]] + Join(rest, sep) by {
          if |rest| > 1 {
            assert Join(r, sep) == ([s[0]] + rest[0]) + [sep] + Join(rest[1..], sep);
          }
        }
        assert s == [s[0]] + s[1..];
        r
  }

  /** Removes the empty strings at the end, as `split` does with its default limit. */
  function DropTrailingEmpty(r: seq<string>): seq<string> {
    if |r| > 0 && r[|r| - 1] == "" then DropTrailingEmpty(r[..|r| - 1]) else r
  }

  /**
   * `s.split(String.valueOf(sep))`: without a separator the whole string (even an empty
   * one) is the single piece; otherwise the pieces with trailing empty strings removed.
   */
  function Split(s: string, sep: char): seq<string> {
    if sep !in s then [s] else DropTrailingEmpty(Pieces(s, sep))
  }

  /** A key, the separator and a non-empty value split into exactly the key and the value. */
  lemma SplitKeyValue(key: string, sep: char, value: string)
    requires sep !in key && sep !in value && value != ""
    ensures Split(key + [sep] + value, sep) == [key, value]
  {
    var s := key + [sep] + value;
    assert s[|key|] == sep;
    KeyPieces(key, sep, value);
  }

  /** A key followed by the separator and nothing else loses its empty value; ":" alone splits to nothing. */
  lemma SplitKeyOnly(key: string, sep: char)
    requires sep !in key
    ensures Split(key + [sep], sep) == if key == "" then [] else [key]
  {
    var s := key + [sep];
    assert s[|key|] == sep;
    assert s + "" == s;
    KeyPieces(key, sep, "");
    assert Split(s, sep) == DropTrailingEmpty([key, ""]);
    assert [key, ""][..1] == [key];
    assert DropTrailingEmpty([key, ""]) == DropTrailingEmpty([key]);
    if key == "" {
      assert [key][..0] == [];
      assert DropTrailingEmpty([key]) == DropTrailingEmpty([]);
    }
  }

  lemma {:induction false} KeyPieces(key: string, sep: char, value: string)
    requires sep !in key && sep !in value
    ensures Pieces(key + [sep] + value, sep) == [key, value]
  {
    var s := key + [sep] + value;
    if key == [] {
      assert s == [sep] + value;
      assert s[1..] == value;
      NoSepPieces(value, sep);
    } else {
      assert s[1..] == key[1..] + [sep] + value;
      KeyPieces(key[1..], sep, value);
      assert [key[0]] + key[1..] == key;
    }
  }

  lemma {:induction false} NoSepPieces(s: string, sep: char)
    requires sep !in s
    ensures Pieces(s, sep) == [s]
  {
    if |s| > 0 {
      NoSepPieces(s[1..], sep);
      assert [s[0]] + s[1..] == s;
    }
  }

  /**
   * A non-empty key without separators, followed by nothing or by a separator and
   * anything, splits with that key as its first piece.
   */
  lemma SplitFirst(key: string, sep: char, rest: string)
    requires key != "" && sep !in key
    requires rest == "" || rest[0] == sep
    ensures |Split(key + rest, sep)| > 0 && Split(key + rest, sep)[0] == key
  {
    var s := key + rest;
    if sep !in s {
    } else {
      PiecesFirst(key, sep, rest);
      DropKeepsFirst(Pieces(s, sep));
    }
  }

  lemma {:induction false} PiecesFirst(key: string, sep: char, rest: string)
    requires sep !in key
    requires rest == "" || rest[0] == sep
    ensures Pieces(key + rest, sep)[0] == key
  {
    var s := key + rest;
    if key == "" {
      assert s == rest;
    } else {
      assert s[0] == key[0] && s[1..] == key[1..] + rest;
      PiecesFirst(key[1..], sep, rest);
      assert [key[0]] + key[1..] == key;
    }
  }

  lemma {:induction false} DropKeepsFirst(r: seq<string>)
    requires |r| > 0 && r[0] != ""
    ensures |DropTrailingEmpty(r)| > 0 && DropTrailingEmpty(r)[0] == r[0]
    decreases |r|
  {
    if r[|r| - 1] == "" {
      DropKeepsFirst(r[..|r| - 1]);
    }
  }

  /** `s.contains(sub)`. */
  predicate Contains(s: string, sub: string) {
    exists i | 0 <= i <= |s| :: OccursAt(s, sub, i)
  }

  predicate OccursAt(s: string, sub: string, i: int) {
    0 <= i && i + |sub| <= |s| && s[i..i + |sub|] == sub
  }
}
