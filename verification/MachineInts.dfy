/** 32-bit machine integers, as values of type int. */
module MachineInts {

  const UNSIGNED: int := 0x1_0000_0000

  /** Decrement of an unsigned counter. */
  function Decrement(n: int): int { if n > 0 then n - 1 else UNSIGNED - 1 }

  /** Assignment to a signed integer keeps the low bits. */
  function ToInt32(n: int): int
  {
    var m := n % UNSIGNED;
    if m < 0x8000_0000 then m else m - UNSIGNED
  }

  /** Truncating after every addition is truncating the sum. */
  lemma AddInt32(a: int, b: int)
    ensures ToInt32(ToInt32(a) + b) == ToInt32(a + b)
  {
    var m := a / UNSIGNED;
    assert ToInt32(a) == a - UNSIGNED * m || ToInt32(a) == a - UNSIGNED * (m + 1);
  }
}
