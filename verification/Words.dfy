/** Machine words, and the arithmetic of multiples that their division needs. */
module Words {

  const USIZE_SIZE: nat := 0x1_0000_0000_0000_0000

  type Word = w: nat | w < USIZE_SIZE

  lemma Multiple(n: nat, k: int)
    requires n > 0
    ensures k >= 1 ==> n * k >= n
    ensures k <= -1 ==> n * k + n <= 0
    ensures n * (k + 1) == n * k + n
  {
  }
}
