/**
 Short channel ids: the integer that LND prints and the `block x transaction x output` text of CLN, as in
 BOLT 7, "Definition of short_channel_id". Integers are unbounded, the text is decimal, and the bitwise
 operators are defined bit by bit.
 */
module ShortChannelId {
  import opened Wrappers
  import Congruence

  // Decimal text

  function Digit(d: nat): char
    requires d < 10
  {
    ('0' as int + d) as char
  }

  predicate IsDigit(c: char) {
    '0' <= c <= '9'
  }

  function ToText(n: nat): string {
    if n < 10 then [Digit(n)] else ToText(n / 10) + [Digit(n % 10)]
  }

  /** Like `BigInt` on decimal digits: the empty text is zero, anything but digits throws. */
  function ParseText(s: string): Option<nat> {
    if s == [] then Some(0)
    else
      var last := |s| - 1;
      match ParseText(s[..last])
      case None => None
      case Some(front) =>
        if IsDigit(s[last]) then Some(10 * front + (s[last] as int - '0' as int)) else None
  }

  lemma {:induction false} ParseUndoesToText(n: nat)
    ensures ParseText(ToText(n)) == Some(n)
    ensures forall c :: c in ToText(n) ==> IsDigit(c)
  {
    if n < 10 {
      assert [Digit(n)][..0] == [];
    } else {
      ParseUndoesToText(n / 10);
      var s := ToText(n);
      assert s[..|s| - 1] == ToText(n / 10);
    }
  }

  /** `split('x')`. */
  function Split(s: string): (parts: seq<string>)
    ensures parts != []
  {
    if s == [] then [[]]
    else
      var rest := Split(s[1..]);
      if s[0] == 'x' then [[]] + rest else [[s[0]] + rest[0]] + rest[1..]
  }

  lemma {:induction false} SplitFirst(part: string, rest: string)
    requires 'x' !in part
    ensures Split(part + "x" + rest) == [part] + Split(rest)
  {
    var s := part + "x" + rest;
    if part == [] {
      assert s[1..] == rest;
      assert [[]] + Split(rest) == [part] + Split(rest);
    } else {
      assert s[1..] == part[1..] + "x" + rest;
      SplitFirst(part[1..], rest);
      assert [part[0]] + part[1..] == part;
    }
  }

  lemma {:induction false} SplitLast(part: string)
    requires 'x' !in part
    ensures Split(part) == [part]
  {
    if part != [] {
      SplitLast(part[1..]);
      assert [part[0]] + part[1..] == part;
    }
  }

  function Triple(block: nat, tx: nat, output: nat): string {
    ToText(block) + "x" + (ToText(tx) + "x" + ToText(output))
  }

  function ParseAll(parts: seq<string>): (r: Option<seq<nat>>)
    ensures r.Some? ==> |r.value| == |parts|
  {
    if parts == [] then Some([])
    else
      match (ParseText(parts[0]), ParseAll(parts[1..]))
      case (Some(n), Some(rest)) => Some([n] + rest)
      case _ => None
  }

  lemma ParseTriple(block: nat, tx: nat, output: nat)
    ensures ParseAll(Split(Triple(block, tx, output))) == Some([block, tx, output])
  {
    ParseUndoesToText(block);
    ParseUndoesToText(tx);
    ParseUndoesToText(output);
    var (b, t, o) := (ToText(block), ToText(tx), ToText(output));
    SplitFirst(b, t + "x" + o);
    SplitFirst(t, o);
    SplitLast(o);
    assert [b] + ([t] + [o]) == [b, t, o];
    assert [b, t, o][1..] == [t, o] && [t, o][1..] == [o] && [o][1..] == [];
    assert ParseAll([]) == Some([]) && [output] + [] == [output];
    assert ParseAll([o]) == Some([output]);
    assert ParseAll([t, o]) == Some([tx] + [output]);
    assert [block] + ([tx] + [output]) == [block, tx, output];
  }

  // Bits

  function Pow2(k: nat): (p: nat)
    ensures p > 0
  {
    if k == 0 then 1 else 2 * Pow2(k - 1)
  }

  function Or(a: nat, b: nat): nat {
    if a == 0 && b == 0 then 0
    else 2 * Or(a / 2, b / 2) + if a % 2 == 1 || b % 2 == 1 then 1 else 0
  }

  function And(a: nat, b: nat): nat {
    if a == 0 || b == 0 then 0
    else 2 * And(a / 2, b / 2) + if a % 2 == 1 && b % 2 == 1 then 1 else 0
  }

  function ShiftLeft(n: nat, k: nat): nat {
    n * Pow2(k)
  }

  function ShiftRight(n: nat, k: nat): nat {
    if k == 0 then n else ShiftRight(n / 2, k - 1)
  }

  lemma {:induction false} ShiftRightDivides(n: nat, k: nat)
    ensures ShiftRight(n, k) == n / Pow2(k)
  {
    if k > 0 {
      ShiftRightDivides(n / 2, k - 1);
      ModHalves(n, Pow2(k - 1));
    }
  }

  lemma {:induction false} OrZero(b: nat)
    ensures Or(0, b) == b && Or(b, 0) == b
  {
    if b != 0 {
      OrZero(b / 2);
    }
  }

  /** Fields that do not overlap: the bitwise-or is the sum. */
  lemma {:induction false} OrOfDisjointIsSum(a: nat, b: nat, k: nat)
    requires b < Pow2(k)
    ensures Or(ShiftLeft(a, k), b) == ShiftLeft(a, k) + b
  {
    if k == 0 {
      OrZero(a);
    } else {
      var high := ShiftLeft(a, k);
      Halve(a, k);
      OrOfDisjointIsSum(a, b / 2, k - 1);
    }
  }

  lemma Halve(a: nat, k: nat)
    requires k > 0
    ensures ShiftLeft(a, k) == 2 * ShiftLeft(a, k - 1)
  {}

  /** Masking with k ones keeps the k lowest bits. */
  lemma {:induction false} AndMaskIsMod(n: nat, k: nat)
    ensures And(n, Pow2(k) - 1) == n % Pow2(k)
  {
    if n == 0 || k == 0 {
      assert n % 1 == 0;
    } else {
      AndMaskIsMod(n / 2, k - 1);
      ModHalves(n, Pow2(k - 1));
    }
  }

  /** Dividing by 2p is halving, then dividing by p. */
  lemma ModHalves(n: nat, p: nat)
    requires p > 0
    ensures n % (2 * p) == 2 * (n / 2 % p) + n % 2
    ensures n / (2 * p) == n / 2 / p
  {
    var h := n / 2;
    var r := 2 * (h % p) + n % 2;
    assert n == (2 * p) * (h / p) + r;
    DivIsUnique(n, 2 * p, h / p, r);
  }

  lemma DivIsUnique(n: int, d: int, k: int, r: int)
    requires d > 0 && n == d * k + r && 0 <= r < d
    ensures n / d == k && n % d == r
  {
    var diff := k - n / d;
    assert diff * d == n % d - r;
    Congruence.MultipleIsFar(diff, d);
  }

  lemma {:induction false} Pow2Adds(a: nat, b: nat)
    ensures Pow2(a + b) == Pow2(a) * Pow2(b)
  {
    if a > 0 {
      Pow2Adds(a - 1, b);
    }
  }

  lemma Powers()
    ensures Pow2(16) == 0x1_0000 && Pow2(24) == 0x100_0000 && Pow2(40) == 0x100_0000_0000
  {
    assert Pow2(4) == 16;
    Pow2Adds(4, 4);
    Pow2Adds(8, 8);
    Pow2Adds(16, 8);
    Pow2Adds(24, 16);
  }

  // The codec

  function Compose(block: nat, tx: nat, output: nat): nat {
    Or(Or(ShiftLeft(block, 40), ShiftLeft(tx, 16)), output)
  }

  function BlockOf(n: nat): nat {
    ShiftRight(n, 40)
  }

  function TxOf(n: nat): nat {
    And(ShiftRight(n, 16), 0xff_ffff)
  }

  function OutputOf(n: nat): nat {
    And(n, 0xffff)
  }

  function LndToCln(s: string): Option<string> {
    match ParseText(s)
    case None => None
    case Some(n) => Some(Triple(BlockOf(n), TxOf(n), OutputOf(n)))
  }

  /** Throws unless there are three parts at least and all are numbers. */
  function ClnToLnd(s: string): Option<string> {
    match ParseAll(Split(s))
    case None => None
    case Some(parts) => if |parts| < 3 then None else Some(ToText(Compose(parts[0], parts[1], parts[2])))
  }

  function TransactionToLnd(blockHeight: nat, transactionIndex: nat, outputIndex: nat): string {
    ToText(Or(Or(ShiftLeft(blockHeight, 40), ShiftLeft(transactionIndex, 16)), outputIndex))
  }

  lemma FieldsByDivision(n: nat)
    ensures BlockOf(n) == n / 0x100_0000_0000
    ensures TxOf(n) == n / 0x1_0000 % 0x100_0000
    ensures OutputOf(n) == n % 0x1_0000
  {
    Powers();
    hide Pow2, And, ShiftRight;
    ShiftRightDivides(n, 40);
    ShiftRightDivides(n, 16);
    AndMaskIsMod(ShiftRight(n, 16), 24);
    AndMaskIsMod(n, 16);
  }

  lemma ComposeIsSum(block: nat, tx: nat, output: nat)
    requires tx < 0x100_0000 && output < 0x1_0000
    ensures Compose(block, tx, output) == block * 0x100_0000_0000 + tx * 0x1_0000 + output
  {
    Powers();
    hide Pow2, Or;
    OrOfDisjointIsSum(block, ShiftLeft(tx, 16), 40);
    var high := block * 0x100_0000 + tx;
    assert ShiftLeft(block, 40) + ShiftLeft(tx, 16) == ShiftLeft(high, 16);
    OrOfDisjointIsSum(high, output, 16);
  }

  lemma FieldsOfSum(block: nat, tx: nat, output: nat)
    requires tx < 0x100_0000 && output < 0x1_0000
    ensures var n := block * 0x100_0000_0000 + tx * 0x1_0000 + output;
            BlockOf(n) == block && TxOf(n) == tx && OutputOf(n) == output
  {
    var n := block * 0x100_0000_0000 + tx * 0x1_0000 + output;
    FieldsByDivision(n);
    hide BlockOf, TxOf, OutputOf;
    DivIsUnique(n, 0x1_0000, block * 0x100_0000 + tx, output);
    DivIsUnique(block * 0x100_0000 + tx, 0x100_0000, block, tx);
    DivIsUnique(n, 0x100_0000_0000, block, tx * 0x1_0000 + output);
  }

  lemma ComposeUndoesFields(n: nat)
    ensures Compose(BlockOf(n), TxOf(n), OutputOf(n)) == n
    ensures TxOf(n) < 0x100_0000 && OutputOf(n) < 0x1_0000
  {
    hide Compose, BlockOf, TxOf, OutputOf;
    FieldsByDivision(n);
    ComposeIsSum(BlockOf(n), TxOf(n), OutputOf(n));
    var high := n / 0x1_0000;
    DivIsUnique(n, 0x100_0000_0000, high / 0x100_0000, high % 0x100_0000 * 0x1_0000 + n % 0x1_0000);
  }

  // Theorems

  /** For every id: through CLN's text and back. */
  lemma LndClnLnd(n: nat)
    ensures LndToCln(ToText(n)).Some?
    ensures ClnToLnd(LndToCln(ToText(n)).value) == Some(ToText(n))
  {
    ParseUndoesToText(n);
    ParseTriple(BlockOf(n), TxOf(n), OutputOf(n));
    ComposeUndoesFields(n);
  }

  // Which texts convert

  predicate AllDigits(s: string) {
    forall c :: c in s ==> IsDigit(c)
  }

  lemma {:induction false} ParsesIff(s: string)
    ensures ParseText(s).Some? <==> AllDigits(s)
  {
    if s != [] {
      var last := |s| - 1;
      ParsesIff(s[..last]);
      assert s == s[..last] + [s[last]];
    }
  }

  lemma {:induction false} ParseAllIff(parts: seq<string>)
    ensures ParseAll(parts).Some? <==> forall p :: p in parts ==> AllDigits(p)
  {
    if parts != [] {
      ParsesIff(parts[0]);
      ParseAllIff(parts[1..]);
      assert parts == [parts[0]] + parts[1..];
    }
  }

  lemma {:induction false} SplitShape(s: string)
    ensures |Split(s)| == 1 + multiset(s)['x']
    ensures (forall p :: p in Split(s) ==> AllDigits(p)) <==> forall c :: c in s ==> c == 'x' || IsDigit(c)
  {
    if s != [] {
      var rest := Split(s[1..]);
      SplitShape(s[1..]);
      assert s == [s[0]] + s[1..];
      var parts := Split(s);
      assert rest == [rest[0]] + rest[1..];
      if s[0] == 'x' {
        assert parts == [[]] + rest;
      } else {
        assert parts == [[s[0]] + rest[0]] + rest[1..];
        assert AllDigits([s[0]] + rest[0]) <==> IsDigit(s[0]) && AllDigits(rest[0]);
      }
    }
  }

  /** A text converts exactly if it is made of digits and at least two separators, and throws otherwise. */
  lemma ClnToLndConvertsIff(s: string)
    ensures ClnToLnd(s).Some?
            <==> (forall c :: c in s ==> c == 'x' || IsDigit(c)) && multiset(s)['x'] >= 2
  {
    SplitShape(s);
    ParseAllIff(Split(s));
  }

  /** For every triple: through the integer and back exactly if its fields fit their widths. */
  lemma ClnLndClnIff(block: nat, tx: nat, output: nat)
    ensures var there := ClnToLnd(Triple(block, tx, output));
            && there.Some?
            && (LndToCln(there.value) == Some(Triple(block, tx, output)) <==> tx < 0x100_0000 && output < 0x1_0000)
  {
    hide Compose, BlockOf, TxOf, OutputOf, ParseAll, ParseText, Split, Triple;
    var n := Compose(block, tx, output);
    ParseTriple(block, tx, output);
    ParseUndoesToText(n);
    ParseTriple(BlockOf(n), TxOf(n), OutputOf(n));
    ComposeUndoesFields(n);
    if tx < 0x100_0000 && output < 0x1_0000 {
      ComposeIsSum(block, tx, output);
      FieldsOfSum(block, tx, output);
    } else {
      assert [block, tx, output][1] == tx && [block, tx, output][2] == output;
    }
  }

  /** Encoding a transaction position is encoding its text, and decodes to it within the widths. */
  lemma TransactionAgrees(block: nat, tx: nat, output: nat)
    ensures ClnToLnd(Triple(block, tx, output)) == Some(TransactionToLnd(block, tx, output))
    ensures tx < 0x100_0000 && output < 0x1_0000 ==>
              LndToCln(TransactionToLnd(block, tx, output)) == Some(Triple(block, tx, output))
  {
    ParseTriple(block, tx, output);
    ClnLndClnIff(block, tx, output);
  }

  predicate Before(n: nat, m: nat) {
    || BlockOf(n) < BlockOf(m)
    || (BlockOf(n) == BlockOf(m) && TxOf(n) < TxOf(m))
    || (BlockOf(n) == BlockOf(m) && TxOf(n) == TxOf(m) && OutputOf(n) < OutputOf(m))
  }

  /** The order of the integers is the order on chain. */
  lemma OrderIsLexicographic(n: nat, m: nat)
    ensures n < m <==> Before(n, m)
  {
    hide Compose, BlockOf, TxOf, OutputOf;
    ComposeUndoesFields(n);
    ComposeUndoesFields(m);
    ComposeIsSum(BlockOf(n), TxOf(n), OutputOf(n));
    ComposeIsSum(BlockOf(m), TxOf(m), OutputOf(m));
  }
}
