// 32-bit machine words, as unsigned numbers.

module Words {
  const WORDS: int := 0x1_0000_0000

  type Word = x: int | 0 <= x < WORDS

  // Arithmetic on words wraps around.
  function Wrap(x: int): Word { x % WORDS }

  // The same bits read as a two's complement number.
  function Signed(x: Word): int { if x >= WORDS / 2 then x - WORDS else x }
}
