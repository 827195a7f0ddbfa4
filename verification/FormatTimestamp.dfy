/** `format_timestamp` of the kretprobe reader: seconds, a point and nine nanosecond digits,
    printed with `snprintf` into a buffer of the caller. */
module FormatTimestamp {
  import opened Words

  const NSEC := 1_000_000_000

  function Digit(d: nat): char
    requires d < 10
  {
    ['0', '1', '2', '3', '4', '5', '6', '7', '8', '9'][d]
  }

  /** `%llu` */
  function Decimal(n: nat): string {
    if n < 10 then [Digit(n)] else Decimal(n / 10) + [Digit(n % 10)]
  }

  function Zeros(k: nat): string {
    if k == 0 then "" else "0" + Zeros(k - 1)
  }

  /** `%09llu` */
  function Padded(n: nat): string {
    if |Decimal(n)| < 9 then Zeros(9 - |Decimal(n)|) + Decimal(n) else Decimal(n)
  }

  function Text(ts: u64): string {
    Decimal(ts / NSEC) + "." + Padded(ts % NSEC)
  }

  /** `snprintf` into `buf`: as much of the text as fits before a terminating NUL. */
  method Format(ts: u64, buf: array<char>)
    modifies buf
    ensures buf.Length > |Text(ts)| ==> buf[..|Text(ts)|] == Text(ts) && buf[|Text(ts)|] == '\0'
    ensures 0 < buf.Length <= |Text(ts)| ==>
              buf[..buf.Length - 1] == Text(ts)[..buf.Length - 1] && buf[buf.Length - 1] == '\0'
    ensures forall i :: |Text(ts)| < i < buf.Length ==> buf[i] == old(buf[i])
  {
    var sec, nsec := ts / NSEC, ts % NSEC;
    var text := Decimal(sec) + "." + Padded(nsec);
    if buf.Length == 0 {
      return;
    }
    var n := if |text| < buf.Length then |text| else buf.Length - 1;
    var i := 0;
    while i < n
      invariant 0 <= i <= n
      invariant buf[..i] == text[..i]
      invariant forall j :: i <= j < buf.Length ==> buf[j] == old(buf[j])
    {
      buf[i] := text[i];
      i := i + 1;
    }
    buf[n] := '\0';
    assert buf[..n] == text[..n];
  }

  // ---------------------------------------------------------------- reading the text back

  function Value(c: char): nat {
    if '0' <= c <= '9' then (c - '0') as int else 0
  }

  function Number(s: string): nat {
    if s == "" then 0 else 10 * Number(s[..|s| - 1]) + Value(s[|s| - 1])
  }

  /** The part of a text before its first point. */
  function BeforePoint(s: string): string {
    if s == "" || s[0] == '.' then "" else [s[0]] + BeforePoint(s[1..])
  }

  /** Seconds before the point, nanoseconds after it. */
  function ReadBack(s: string): nat {
    var sec := BeforePoint(s);
    var rest := if |sec| < |s| then s[|sec| + 1..] else "";
    NSEC * Number(sec) + Number(rest)
  }

  lemma {:induction false} NumberOfDecimal(n: nat)
    ensures Number(Decimal(n)) == n
    ensures '.' !in Decimal(n)
  {
    if n < 10 {
      assert Decimal(n)[..0] == "";
      ValueOfDigit(n);
    } else {
      NumberOfDecimal(n / 10);
      ValueOfDigit(n % 10);
      assert Decimal(n)[..|Decimal(n)| - 1] == Decimal(n / 10);
    }
  }

  lemma {:induction false} ValueOfDigit(d: nat)
    requires d < 10
    ensures Value(Digit(d)) == d && Digit(d) != '.'
  {
  }

  lemma {:induction false} NumberOfZeros(k: nat, s: string)
    ensures Number(Zeros(k) + s) == Number(s)
    decreases |s|, k
  {
    if s != "" {
      NumberOfZeros(k, s[..|s| - 1]);
      assert (Zeros(k) + s)[..k + |s| - 1] == Zeros(k) + s[..|s| - 1] by {
        ZerosLength(k);
      }
      ZerosLength(k);
    } else if k > 0 {
      ZerosLength(k);
      assert Zeros(k) + s == Zeros(k - 1) + "0" by {
        ZerosCommute(k - 1);
      }
      ZerosLength(k - 1);
      assert (Zeros(k - 1) + "0")[..k - 1] == Zeros(k - 1);
      NumberOfZeros(k - 1, "");
      assert Zeros(k - 1) + "" == Zeros(k - 1);
    }
  }

  lemma {:induction false} ZerosLength(k: nat)
    ensures |Zeros(k)| == k
  {
    if k > 0 {
      ZerosLength(k - 1);
    }
  }

  lemma {:induction false} ZerosCommute(k: nat)
    ensures "0" + Zeros(k) == Zeros(k) + "0"
  {
    if k > 0 {
      ZerosCommute(k - 1);
      assert "0" + Zeros(k) == "0" + (Zeros(k - 1) + "0");
    }
  }

  lemma {:induction false} BeforePointOf(a: string, b: string)
    requires '.' !in a
    ensures BeforePoint(a + "." + b) == a
  {
    if a == "" {
      assert a + "." + b == "." + b;
    } else {
      assert (a + "." + b)[1..] == a[1..] + "." + b;
      BeforePointOf(a[1..], b);
    }
  }

  function Pow10(k: nat): nat {
    if k == 0 then 1 else 10 * Pow10(k - 1)
  }

  lemma {:induction false} DecimalLength(n: nat, k: nat)
    requires k >= 1 && n < Pow10(k)
    ensures |Decimal(n)| <= k
  {
    if n >= 10 {
      DecimalLength(n / 10, k - 1);
    }
  }

  lemma {:induction false} Powers()
    ensures Pow10(9) == NSEC && Pow10(11) == 100 * NSEC
  {
    assert Pow10(3) == 1000;
    assert Pow10(6) == 1_000_000;
  }

  /** For every 64-bit timestamp the text and its NUL fit into the 32 bytes the caller provides. */
  lemma {:induction false} FitsBuffer(ts: u64)
    ensures |Text(ts)| <= 21 < 32
    ensures |Padded(ts % NSEC)| == 9
  {
    Powers();
    DecimalLength(ts / NSEC, 11);
    DecimalLength(ts % NSEC, 9);
    ZerosLength(if |Decimal(ts % NSEC)| < 9 then 9 - |Decimal(ts % NSEC)| else 0);
  }

  /** Reading the printed text back gives the timestamp. */
  lemma {:induction false} ReadBackText(ts: u64)
    ensures ReadBack(Text(ts)) == ts
  {
    var sec, nsec := ts / NSEC, ts % NSEC;
    NumberOfDecimal(sec);
    NumberOfPadded(nsec);
    BeforePointOf(Decimal(sec), Padded(nsec));
    assert Text(ts)[|Decimal(sec)| + 1..] == Padded(nsec);
  }

  lemma {:induction false} NumberOfPadded(n: nat)
    ensures Number(Padded(n)) == n
  {
    NumberOfDecimal(n);
    if |Decimal(n)| < 9 {
      NumberOfZeros(9 - |Decimal(n)|, Decimal(n));
    }
  }

  /** So printing is injective. */
  lemma {:induction false} Injective(a: u64, b: u64)
    requires Text(a) == Text(b)
    ensures a == b
  {
    ReadBackText(a);
    ReadBackText(b);
  }
}
