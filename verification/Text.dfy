/** Names, the strings built from them, and blank strings. */
module Text {
  import opened Json

  function Join(parts: seq<string>, sep: string): string {
    if |parts| == 0 then ""
    else if |parts| == 1 then parts[0]
    else parts[0] + sep + Join(parts[1..], sep)
  }

  /** The Unicode White_Space property, which `str::trim` removes. */
  predicate IsWhitespace(c: char) {
    || '\U{0009}' <= c <= '\U{000D}' || c == ' ' || c == '\U{0085}' || c == '\U{00A0}' || c == '\U{1680}'
    || '\U{2000}' <= c <= '\U{200A}' || c == '\U{2028}' || c == '\U{2029}' || c == '\U{202F}'
    || c == '\U{205F}' || c == '\U{3000}'
  }

  predicate Blank(s: string) {
    forall c :: c in s ==> IsWhitespace(c)
  }

  function Trim(s: string): string {
    if s != "" && IsWhitespace(s[0]) then Trim(s[1..])
    else if s != "" && IsWhitespace(s[|s| - 1]) then Trim(s[..|s| - 1])
    else s
  }

  /** The pieces between separators; one more than there are separators. */
  function Split(s: string, sep: char): (r: seq<string>)
    ensures r != []
  {
    if s == "" then [""]
    else
      var rest := Split(s[1..], sep);
      if s[0] == sep then [""] + rest else [[s[0]] + rest[0]] + rest[1..]
  }

  lemma {:induction false} SplitPiece(piece: string, sep: char, tail: string)
    requires sep !in piece
    ensures Split(piece, sep) == [piece]
    ensures Split(piece + [sep] + tail, sep) == [piece] + Split(tail, sep)
  {
    var s := piece + [sep] + tail;
    if piece == "" {
      assert s[1..] == tail;
    } else {
      SplitPiece(piece[1..], sep, tail);
      assert s[1..] == piece[1..] + [sep] + tail;
      assert [piece[0]] + piece[1..] == piece;
      assert [[piece[0]] + piece[1..]] + Split(tail, sep) == [piece] + Split(tail, sep);
      assert Split(piece, sep) == [[piece[0]] + piece[1..]] + [];
    }
  }

  /** Joining and splitting at a separator that no part contains. */
  lemma {:induction false} SplitJoined(parts: seq<string>, sep: char)
    requires parts != [] && forall p :: p in parts ==> sep !in p
    ensures Split(Join(parts, [sep]), sep) == parts
    decreases |parts|
  {
    if |parts| == 1 {
      SplitPiece(parts[0], sep, "");
    } else {
      SplitPiece(parts[0], sep, Join(parts[1..], [sep]));
      SplitJoined(parts[1..], sep);
    }
  }

  // ---- decimal numbers ----

  function Digits(s: string): Option<nat> {
    if s == "" then Some(0) else
    var n :- Digits(s[..|s| - 1]);
    var c := s[|s| - 1];
    if '0' <= c <= '9' then Some(10 * n + (c - '0') as nat) else None
  }

  function Digit(n: nat): char
    requires n < 10
  {
    '0' + n as char
  }

  function Decimal(n: nat): string {
    if n < 10 then [Digit(n)] else Decimal(n / 10) + [Digit(n % 10)]
  }

  lemma {:induction false} DecimalRead(n: nat)
    ensures Decimal(n) != "" && Digits(Decimal(n)) == Some(n) && ':' !in Decimal(n)
  {
    if n < 10 {
      assert [Digit(n)][..0] == "";
      assert Digits([Digit(n)]) == Some(n);
    } else {
      DecimalRead(n / 10);
      assert Decimal(n)[..|Decimal(n)| - 1] == Decimal(n / 10);
    }
  }

  function Zeros(n: nat): string {
    seq(n, _ => '0')
  }

  /** What is read as a number is its decimal form, possibly after zeros. */
  lemma {:induction false} DigitsExactly(s: string, n: nat)
    ensures s != "" && Digits(s) == Some(n) <==> exists z: nat :: s == Zeros(z) + Decimal(n)
    decreases |s|
  {
    if s != "" && Digits(s) == Some(n) {
      var z := ReadForm(s, n);
    }
    forall z: nat | s == Zeros(z) + Decimal(n) ensures s != "" && Digits(s) == Some(n) {
      DecimalRead(n);
      LeadingZeros(z, Decimal(n));
    }
  }

  lemma {:induction false} ReadForm(s: string, n: nat) returns (z: nat)
    requires s != "" && Digits(s) == Some(n)
    ensures s == Zeros(z) + Decimal(n)
    decreases |s|
  {
    var init, c := s[..|s| - 1], s[|s| - 1];
    var m := LastDigit(s, n);
    assert s == init + [c];
    if m > 0 {
      z := ReadForm(init, m);
      hide Decimal, Digits;
      assert s == Zeros(z) + Decimal(n);
    } else if init == "" {
      z := 0;
    } else {
      z := ReadForm(init, 0);
      z := z + 1;
    }
  }

  lemma LastDigit(s: string, n: nat) returns (m: nat)
    requires s != "" && Digits(s) == Some(n)
    ensures Digits(s[..|s| - 1]) == Some(m)
    ensures if m > 0 then Decimal(n) == Decimal(m) + [s[|s| - 1]] else Decimal(n) == [s[|s| - 1]]
  {
    m := Digits(s[..|s| - 1]).value;
    var d := n - 10 * m;
    assert Digit(d) == s[|s| - 1] && n / 10 == m && n % 10 == d;
  }

  lemma {:induction false} LeadingZeros(z: nat, s: string)
    requires Digits(s).Some?
    ensures Digits(Zeros(z) + s) == Digits(s)
    decreases |s|, z
  {
    var all := Zeros(z) + s;
    if s == "" {
      if z > 0 {
        assert all[..|all| - 1] == Zeros(z - 1) + "";
        LeadingZeros(z - 1, "");
      }
    } else {
      assert all[..|all| - 1] == Zeros(z) + s[..|s| - 1];
      LeadingZeros(z, s[..|s| - 1]);
    }
  }

  // ---- separators ----

  /** The first place of `x`, or the length where there is none. */
  function IndexOf<T(==)>(s: seq<T>, x: T): (i: nat)
    ensures i <= |s|
  {
    if s == [] || s[0] == x then 0 else 1 + IndexOf(s[1..], x)
  }

  lemma {:induction false} IndexOfSeparator<T>(head: seq<T>, sep: T, tail: seq<T>)
    requires sep !in head
    ensures IndexOf(head + [sep] + tail, sep) == |head|
  {
    if head != [] {
      assert (head + [sep] + tail)[1..] == head[1..] + [sep] + tail;
      IndexOfSeparator(head[1..], sep, tail);
    }
  }

  /** A separator absent from both heads marks where the heads end. */
  lemma HeadsEnd<T>(a: seq<T>, x: seq<T>, b: seq<T>, y: seq<T>, sep: T)
    requires sep !in a && sep !in b && a + [sep] + x == b + [sep] + y
    ensures a == b && x == y
  {
    IndexOfSeparator(a, sep, x);
    IndexOfSeparator(b, sep, y);
    var s := a + [sep] + x;
    assert a == s[..|a|] && b == s[..|b|] && x == s[|a| + 1..] && y == s[|b| + 1..];
  }
}
