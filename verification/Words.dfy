/** Fixed-width machine words of the C programs.  Arithmetic on `__u64` wraps modulo 2^64. */
module Words {
  type u8 = x: int | 0 <= x < 0x100
  type u16 = x: int | 0 <= x < 0x1_0000
  type u32 = x: int | 0 <= x < 0x1_0000_0000
  type u64 = x: int | 0 <= x < 0x1_0000_0000_0000_0000
  type s64 = x: int | -0x8000_0000_0000_0000 <= x < 0x8000_0000_0000_0000

  datatype Option<+T> = None | Some(value: T)

  /** The `__u64` that is congruent to an unbounded integer. */
  function Wrap64(x: int): u64 {
    x % 0x1_0000_0000_0000_0000
  }

  function Add64(a: u64, b: u64): u64 {
    Wrap64(a + b)
  }

  function Sub64(a: u64, b: u64): u64 {
    Wrap64(a - b)
  }

  /** Wrapping early or late makes no difference to a sum. */
  lemma {:induction false} WrapAdd(x: int, y: int)
    ensures Wrap64(Wrap64(x) + y) == Wrap64(x + y)
    ensures Wrap64(Wrap64(x) + Wrap64(y)) == Wrap64(x + y)
  {
  }

  lemma {:induction false} AddWrapped(x: int, y: u64)
    ensures Add64(Wrap64(x), y) == Wrap64(x + y)
  {
  }

  lemma {:induction false} NoWrap(x: int)
    requires 0 <= x < 0x1_0000_0000_0000_0000
    ensures Wrap64(x) == x
  {
  }

  lemma {:induction false} WrapAtMost(x: nat)
    ensures Wrap64(x) <= x
  {
  }

  lemma {:induction false} WrapSub(x: int, y: int)
    ensures Wrap64(Wrap64(x) - y) == Wrap64(x - y)
    ensures Wrap64(x - Wrap64(y)) == Wrap64(x - y)
  {
    assert x == Wrap64(x) + 0x1_0000_0000_0000_0000 * (x / 0x1_0000_0000_0000_0000);
    assert y == Wrap64(y) + 0x1_0000_0000_0000_0000 * (y / 0x1_0000_0000_0000_0000);
  }

  lemma {:induction false} WrapGrowth(c: int, c': int, a: int, a': int)
    requires Wrap64(c' - a') == Wrap64(c - a)
    ensures Wrap64(c' - c) == Wrap64(a' - a)
    ensures Wrap64(c') == Wrap64(c + (a' - a))
  {
    var k := (c' - a') / 0x1_0000_0000_0000_0000 - (c - a) / 0x1_0000_0000_0000_0000;
    assert c' - c == a' - a + k * 0x1_0000_0000_0000_0000;
  }

  lemma {:induction false} WrapSum(x: int, x': int, y: int, y': int)
    requires Wrap64(x) == Wrap64(x') && Wrap64(y) == Wrap64(y')
    ensures Wrap64(x + y) == Wrap64(x' + y')
  {
    WrapAdd(x, y);
    WrapAdd(x', y');
  }

  /** Three counters that keep their residues over three accounts that balance up to `b`
      grow in balance, too. */
  lemma {:induction false} WrapBalance(c: int, c': int, d: int, d': int, e: int, e': int,
                    a: int, a': int, x: int, x': int, y: int, y': int, b: int, b': int)
    requires Wrap64(c' - a') == Wrap64(c - a) && Wrap64(d' - x') == Wrap64(d - x) && Wrap64(e' - y') == Wrap64(e - y)
    requires a == x + y + b && a' == x' + y' + b'
    ensures Wrap64(c' - c) == Wrap64((d' - d) + (e' - e) + (b' - b))
  {
    WrapGrowth(c, c', a, a');
    WrapGrowth(d, d', x, x');
    WrapGrowth(e, e', y, y');
    WrapSum(d' - d, x' - x, e' - e, y' - y);
    WrapSum((d' - d) + (e' - e), (x' - x) + (y' - y), b' - b, b' - b);
  }

  /** `pid_tgid >> 32`: the process half of a thread key. */
  function PidOf(pidTgid: u64): u32 {
    pidTgid / 0x1_0000_0000
  }

  /** `(__u32)pid_tgid`: the thread half of a thread key. */
  function TidOf(pidTgid: u64): u32 {
    pidTgid % 0x1_0000_0000
  }

  /** A thread key is made of its two halves, and of no others. */
  lemma {:induction false} KeyParts(id: u64, p: u32, t: u32)
    ensures id == p * 0x1_0000_0000 + t <==> PidOf(id) == p && TidOf(id) == t
  {
  }

  /** The keys of the threads of a process. */
  predicate InProcess(id: u64, p: u32) {
    p * 0x1_0000_0000 <= id < (p + 1) * 0x1_0000_0000
  }

  lemma {:induction false} InProcessIs(id: u64, p: u32)
    ensures InProcess(id, p) <==> PidOf(id) == p
  {
  }
}
