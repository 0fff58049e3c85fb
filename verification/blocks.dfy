/** Loop bounds by floor division: a list cut into blocks, and the stops of a moving window. */
module Blocks {
  import opened Arithmetic

  /** Block `i` of `n` positions cut into `parts` equal blocks, of which the last also takes the remainder. */
  function BlockStart(n: nat, parts: nat, i: nat): nat
    requires i < parts
  {
    MulMonotone(0, i, n / parts);
    i * (n / parts)
  }

  function BlockEnd(n: nat, parts: nat, i: nat): nat
    requires i < parts
  {
    if i < parts - 1 then BlockStart(n, parts, i) + n / parts else n
  }

  lemma BlockWithin(n: nat, parts: nat, i: nat)
    requires i < parts
    ensures BlockStart(n, parts, i) <= BlockEnd(n, parts, i) <= n
    ensures BlockEnd(n, parts, i) == if i < parts - 1 then BlockStart(n, parts, i + 1) else n
    ensures n >= parts ==> BlockStart(n, parts, i) < BlockEnd(n, parts, i)
  {
    FloorBounds(n, parts);
    FloorGalois(n, parts, 1);
    MulMonotone(i + 1, parts, n / parts);
    MulSuccessor(i, n / parts);
  }

  /** All blocks but the last have the same size, and the last one what is left. */
  lemma BlockSizes(n: nat, parts: nat, i: nat)
    requires i < parts
    ensures BlockStart(n, parts, i) == i * (n / parts)
    ensures BlockEnd(n, parts, i) - BlockStart(n, parts, i)
         == if i == parts - 1 then n - (parts - 1) * (n / parts) else n / parts
  {
  }

  /** The one block that position `p` lies in. */
  function BlockOf(n: nat, parts: nat, p: nat): nat
    requires 1 <= parts
  {
    var size := n / parts;
    if size == 0 || p / size >= parts - 1 then parts - 1 else p / size
  }

  /** Every position lies in exactly one block, also when there are more blocks than positions. */
  lemma OneBlockPerPosition(n: nat, parts: nat, p: nat, i: nat)
    requires p < n && i < parts
    ensures BlockStart(n, parts, i) <= p < BlockEnd(n, parts, i) <==> i == BlockOf(n, parts, p)
  {
    var size := n / parts;
    if size > 0 {
      MulSuccessor(i, size);
      FloorGalois(p, size, i);
      FloorGalois(p, size, i + 1);
      assert BlockStart(n, parts, i) <= p <==> i <= p / size;
      assert i < parts - 1 ==> (p < BlockEnd(n, parts, i) <==> p / size < i + 1);
    }
  }

  /** How often a window of length `length` fits into `n` positions when it moves on by `step`. */
  function StepCount(n: nat, length: nat, step: nat): nat
    requires step >= 1
  {
    if n < length then 0 else (n - length) / step + 1
  }

  lemma StepFits(n: nat, length: nat, step: nat, k: nat)
    requires step >= 1
    ensures 0 <= k * step && (k < StepCount(n, length, step) <==> k * step + length <= n)
  {
    MulMonotone(0, k, step);
    if n >= length {
      FloorGalois(n - length, step, k);
    }
  }
}
