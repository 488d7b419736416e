/** A ring of slots between a tail and a head; one slot is never filled. */
module Ring {

  predicate InRing(buffer: seq, head: nat, tail: nat) {
    head < |buffer| && tail < |buffer|
  }

  function Next(i: nat, size: nat): nat
    requires size > 0
  {
    if i + 1 == size then 0 else i + 1
  }

  /** The filled slots, oldest first. */
  function Contents<T>(buffer: seq<T>, head: nat, tail: nat): (q: seq<T>)
    requires InRing(buffer, head, tail)
    ensures |q| == (if tail <= head then head - tail else head - tail + |buffer|) < |buffer|
  {
    if tail <= head then buffer[tail..head] else buffer[tail..] + buffer[..head]
  }

  lemma Push<T>(buffer: seq<T>, head: nat, tail: nat, x: T)
    requires InRing(buffer, head, tail) && Next(head, |buffer|) != tail
    ensures Contents(buffer[head := x], Next(head, |buffer|), tail)
         == Contents(buffer, head, tail) + [x]
  {
  }

  lemma Pop<T>(buffer: seq<T>, head: nat, tail: nat)
    requires InRing(buffer, head, tail) && head != tail
    ensures Contents(buffer, head, tail)
         == [buffer[tail]] + Contents(buffer, head, Next(tail, |buffer|))
  {
  }

  /** Head meets tail exactly when nothing is stored, and the next head does exactly when
      one slot is left. */
  lemma EmptyAndFull<T>(buffer: seq<T>, head: nat, tail: nat)
    requires InRing(buffer, head, tail)
    ensures head == tail <==> Contents(buffer, head, tail) == []
    ensures Next(head, |buffer|) == tail <==> |Contents(buffer, head, tail)| == |buffer| - 1
  {
  }

  /** Two rings over one buffer, the longer one staging bytes past the shorter one's head:
      dropping the oldest byte keeps the staged ones. */
  lemma PopBoth<T>(buffer: seq<T>, head: nat, far: nat, tail: nat, staged: seq<T>)
    requires InRing(buffer, head, tail) && far < |buffer| && head != tail
    requires Contents(buffer, far, tail) == Contents(buffer, head, tail) + staged
    ensures Contents(buffer, far, Next(tail, |buffer|))
         == Contents(buffer, head, Next(tail, |buffer|)) + staged
  {
    hide Contents;
    Pop(buffer, head, tail);
    EmptyAndFull(buffer, head, tail);
    EmptyAndFull(buffer, far, tail);
    assert far != tail;
    Pop(buffer, far, tail);
    var rest := Contents(buffer, head, Next(tail, |buffer|));
    assert ([buffer[tail]] + rest + staged)[1..] == rest + staged;
  }

  /** Writing at a far head leaves the slots before a nearer head alone. */
  lemma WriteBeyond<T>(buffer: seq<T>, head: nat, far: nat, tail: nat, x: T)
    requires InRing(buffer, head, tail) && far < |buffer|
    requires |Contents(buffer, head, tail)| <= |Contents(buffer, far, tail)|
    ensures Contents(buffer[far := x], head, tail) == Contents(buffer, head, tail)
  {
  }
}
