/**
 The keys under which an escalation or a recovery notice is enqueued at most once, and their printed
 form (src/notification.rs, src/alert.rs). Tables below compare keys; this module shows that comparing
 their texts, as the unique index does, is the same thing.
 */
module DedupKeys {

  newtype Uuid = x: int | 0 <= x < 0x1_0000_0000_0000_0000_0000_0000_0000_0000

  datatype Key = Escalation(row: Uuid, step: nat) | Recovery(rule: Uuid, issue: Uuid, count: nat)

  // ----- numbers -----

  const DIGITS := "0123456789abcdef"

  function Digit(d: int): (c: char)
    requires 0 <= d < 16
    ensures c == DIGITS[d] && c != '-' && c != ':'
  {
    DIGITS[d]
  }

  lemma DigitIsInjective(a: int, b: int)
    requires 0 <= a < 16 && 0 <= b < 16 && Digit(a) == Digit(b)
    ensures a == b
  {
  }

  /** The decimal form of a number. */
  function Decimal(n: nat): (s: string)
    ensures s != ""
  {
    if n < 10 then [Digit(n)] else Decimal(n / 10) + [Digit(n % 10)]
  }

  lemma {:induction false} DecimalIsInjective(a: nat, b: nat)
    requires Decimal(a) == Decimal(b)
    ensures a == b
  {
    var s := Decimal(a);
    assert s[|s| - 1] == Digit(a % 10) && s[|s| - 1] == Digit(b % 10);
    DigitIsInjective(a % 10, b % 10);
    if a >= 10 && b >= 10 {
      assert Decimal(a / 10) == s[..|s| - 1] && Decimal(b / 10) == s[..|s| - 1];
      DecimalIsInjective(a / 10, b / 10);
    }
  }

  /** The last `width` hexadecimal digits of a number. */
  function Hex(n: nat, width: nat): (s: string)
    ensures |s| == width
  {
    if width == 0 then "" else Hex(n / 16, width - 1) + [Digit(n % 16)]
  }

  function Pow16(e: nat): (p: nat)
    ensures p > 0
  {
    if e == 0 then 1 else 16 * Pow16(e - 1)
  }

  lemma {:induction false} Pow16Adds(a: nat, b: nat)
    ensures Pow16(a + b) == Pow16(a) * Pow16(b)
  {
    if a > 0 {
      Pow16Adds(a - 1, b);
      assert Pow16(a + b) == 16 * (Pow16(a - 1) * Pow16(b)) == (16 * Pow16(a - 1)) * Pow16(b);
    }
  }

  lemma Pow16Of32()
    ensures Pow16(32) == 0x1_0000_0000_0000_0000_0000_0000_0000_0000
  {
    assert Pow16(1) == 16;
    Pow16Adds(1, 1);
    Pow16Adds(2, 2);
    Pow16Adds(4, 4);
    Pow16Adds(8, 8);
    Pow16Adds(16, 16);
  }

  lemma {:induction false} HexIsInjective(a: nat, b: nat, width: nat)
    requires a < Pow16(width) && b < Pow16(width)
    requires Hex(a, width) == Hex(b, width)
    ensures a == b
  {
    if width > 0 {
      var s := Hex(a, width);
      assert s[width - 1] == Digit(a % 16) && s[width - 1] == Digit(b % 16);
      DigitIsInjective(a % 16, b % 16);
      assert Hex(a / 16, width - 1) == s[..width - 1] && Hex(b / 16, width - 1) == s[..width - 1];
      HexIsInjective(a / 16, b / 16, width - 1);
    }
  }

  // ----- identifiers -----

  /** The hyphenated form of an identifier: groups of 8, 4, 4, 4 and 12 digits. */
  function UuidText(u: Uuid): (s: string)
    ensures |s| == 36
  {
    var h := Hex(u as nat, 32);
    h[..8] + "-" + h[8..12] + "-" + h[12..16] + "-" + h[16..20] + "-" + h[20..]
  }

  lemma UuidTextIsInjective(a: Uuid, b: Uuid)
    requires UuidText(a) == UuidText(b)
    ensures a == b
  {
    var x, y, s := Hex(a as nat, 32), Hex(b as nat, 32), UuidText(a);
    Unhyphenated(a, s);
    Unhyphenated(b, s);
    Pow16Of32();
    HexIsInjective(a as nat, b as nat, 32);
  }

  lemma Unhyphenated(u: Uuid, s: string)
    requires s == UuidText(u)
    ensures Hex(u as nat, 32) == s[..8] + s[9..13] + s[14..18] + s[19..23] + s[24..]
  {
    var h := Hex(u as nat, 32);
    assert s[..8] == h[..8];
    assert s[9..13] == h[8..12];
    assert s[14..18] == h[12..16];
    assert s[19..23] == h[16..20];
    assert s[24..] == h[20..];
  }

  // ----- keys -----

  function Text(k: Key): string
  {
    match k
    case Escalation(row, step) => "escalation:" + UuidText(row) + ":" + Decimal(step)
    case Recovery(rule, issue, count) =>
      "recovery:" + UuidText(rule) + ":" + UuidText(issue) + ":" + Decimal(count)
  }

  lemma SameLengthPrefix(a: string, b: string, x: string, y: string)
    requires |a| == |b| && a + x == b + y
    ensures a == b && x == y
  {
    assert a == (a + x)[..|a|] && b == (b + y)[..|a|];
    assert x == (a + x)[|a|..] && y == (b + y)[|a|..];
  }

  /** Two keys print alike only if they are the same key; the two families never meet. */
  lemma TextIsInjective(a: Key, b: Key)
    requires Text(a) == Text(b)
    ensures a == b
  {
    match a
    case Escalation(row, step) =>
      assert Text(a)[0] == 'e';
      var x := "escalation:" + UuidText(row) + ":";
      var y := "escalation:" + UuidText(b.row) + ":";
      SameLengthPrefix(x, y, Decimal(step), Decimal(b.step));
      assert UuidText(row) == x[11..47] && UuidText(b.row) == y[11..47];
      UuidTextIsInjective(row, b.row);
      DecimalIsInjective(step, b.step);
    case Recovery(rule, issue, count) =>
      assert Text(a)[0] == 'r';
      var x := "recovery:" + UuidText(rule) + ":" + UuidText(issue) + ":";
      var y := "recovery:" + UuidText(b.rule) + ":" + UuidText(b.issue) + ":";
      SameLengthPrefix(x, y, Decimal(count), Decimal(b.count));
      assert UuidText(rule) == x[9..45] && UuidText(b.rule) == y[9..45];
      assert UuidText(issue) == x[46..82] && UuidText(b.issue) == y[46..82];
      UuidTextIsInjective(rule, b.rule);
      UuidTextIsInjective(issue, b.issue);
      DecimalIsInjective(count, b.count);
  }
}
