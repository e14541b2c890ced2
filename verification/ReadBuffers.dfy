/**
 Copying queued values into a reader's buffer (src/sync/wait_queue.rs, `receive_into_user`): as many bytes as
 fit are copied, and as many values as were copied whole leave the queue.
 */
module ReadBuffers {
  type Value = seq<nat>

  /** The bytes of the values, one after the other, as the queue holds them. */
  function Bytes(vs: seq<Value>): seq<nat> {
    if vs == [] then [] else vs[0] + Bytes(vs[1..])
  }

  predicate Sized(vs: seq<Value>, size: nat) {
    forall i | 0 <= i < |vs| :: |vs[i]| == size
  }

  /** Division of naturals, by repeated subtraction. */
  function Quotient(a: nat, n: nat): nat
    requires n > 0
  {
    if a < n then 0 else 1 + Quotient(a - n, n)
  }

  function Remainder(a: nat, n: nat): nat
    requires n > 0
  {
    if a < n then a else Remainder(a - n, n)
  }

  /** The two are what `/` and `%` compute. */
  lemma {:induction false} QuotientIs(a: nat, n: nat)
    requires n > 0
    ensures a == Quotient(a, n) * n + Remainder(a, n) && Remainder(a, n) < n
  {
    if a >= n {
      QuotientIs(a - n, n);
      assert Quotient(a, n) * n == Quotient(a - n, n) * n + n;
    }
  }

  /** How many bytes a read into a buffer of `len` bytes copies. */
  function Copied(vs: seq<Value>, len: nat): nat {
    if len < |Bytes(vs)| then len else |Bytes(vs)|
  }

  /** How many values it then takes off the queue. */
  function Drained(vs: seq<Value>, len: nat, size: nat): nat
    requires size > 0
  {
    Quotient(Copied(vs, len), size)
  }

  lemma {:induction false} BytesConcat(a: seq<Value>, b: seq<Value>)
    ensures Bytes(a + b) == Bytes(a) + Bytes(b)
  {
    if a == [] {
      assert a + b == b;
    } else {
      assert (a + b)[1..] == a[1..] + b;
      BytesConcat(a[1..], b);
    }
  }

  /** The first `c` bytes are a number of whole values and a remainder. */
  lemma {:induction false} WholeValues(vs: seq<Value>, size: nat, c: nat)
    requires size > 0 && Sized(vs, size) && c <= |Bytes(vs)|
    ensures Quotient(c, size) <= |vs| && |Bytes(vs[..Quotient(c, size)])| + Remainder(c, size) == c
    ensures Bytes(vs)[..c - Remainder(c, size)] == Bytes(vs[..Quotient(c, size)])
  {
    if c < size {
    } else {
      var k := Quotient(c, size);
      WholeValues(vs[1..], size, c - size);
      assert vs[..k][1..] == vs[1..][..k - 1];
      assert Bytes(vs)[..c - Remainder(c, size)] == vs[0] + Bytes(vs[1..])[..c - size - Remainder(c, size)];
    }
  }

  lemma {:induction false} AllBytes(vs: seq<Value>, size: nat)
    requires size > 0 && Sized(vs, size)
    ensures Remainder(|Bytes(vs)|, size) == 0
  {
    if vs != [] { AllBytes(vs[1..], size); }
  }

  /** A read copies only whole values exactly when the buffer is a whole number of them or holds everything. */
  lemma CopiesWhole(vs: seq<Value>, size: nat, len: nat)
    requires size > 0 && Sized(vs, size)
    ensures Remainder(Copied(vs, len), size) == 0 <==> Remainder(len, size) == 0 || len >= |Bytes(vs)|
  {
    AllBytes(vs, size);
  }

  /** The copy as the ring buffer makes it: the two slices it is stored in, one after the other. */
  function TwoCopies(s1: seq<Value>, s2: seq<Value>, len: nat): seq<nat> {
    if len < |Bytes(s1)| then Bytes(s1)[..len] else Bytes(s1) + Bytes(s2)[..Copied(s2, len - |Bytes(s1)|)]
  }

  /** Wherever the ring buffer is split, the reader gets the first bytes of the queue. */
  lemma TwoCopiesAre(s1: seq<Value>, s2: seq<Value>, len: nat)
    ensures TwoCopies(s1, s2, len) == Bytes(s1 + s2)[..Copied(s1 + s2, len)]
  {
    BytesConcat(s1, s2);
  }

  // A history of reads.

  /** One read: the buffer's length and the values it found. */
  datatype Read = Read(len: nat, found: seq<Value>)

  /** A read that copied part of a value without taking it off the queue. */
  predicate Torn(r: Read, size: nat)
    requires size > 0
  {
    Remainder(Copied(r.found, r.len), size) != 0
  }

  /** How many bytes the reads have copied that belong to values left on the queue. */
  function Extra(log: seq<Read>, size: nat): nat
    requires size > 0
  {
    if log == [] then 0
    else Extra(log[..|log| - 1], size) + Remainder(Copied(log[|log| - 1].found, log[|log| - 1].len), size)
  }

  lemma {:induction false} NoExtra(log: seq<Read>, size: nat)
    requires size > 0
    ensures Extra(log, size) == 0 <==> forall i | 0 <= i < |log| :: !Torn(log[i], size)
  {
    if log != [] {
      var n := |log| - 1;
      NoExtra(log[..n], size);
      assert forall i | 0 <= i < n :: log[..n][i] == log[i];
    }
  }

  /** What readers got, against the values taken off the queue. */
  predicate Account(delivered: seq<nat>, received: seq<Value>, log: seq<Read>, size: nat)
    requires size > 0
  {
    && |delivered| == |Bytes(received)| + Extra(log, size)
    && (Extra(log, size) == 0 ==> delivered == Bytes(received))
  }

  /** One more read keeps the account. */
  lemma ReadStep(delivered: seq<nat>, received: seq<Value>, log: seq<Read>, size: nat, queue: seq<Value>, len: nat)
    requires size > 0 && Sized(queue, size) && Account(delivered, received, log, size)
    ensures var k := Drained(queue, len, size);
            && k <= |queue|
            && Account(delivered + Bytes(queue)[..Copied(queue, len)], received + queue[..k],
                       log + [Read(len, queue)], size)
  {
    var c := Copied(queue, len);
    var more := log + [Read(len, queue)];
    WholeValues(queue, size, c);
    BytesConcat(received, queue[..Quotient(c, size)]);
    assert more[..|log|] == log;
  }

  /** A buffer of one and a half values: two reads drain both values, but deliver part of the second twice. */
  lemma HalfValueTwice()
    ensures var queue: seq<Value> := [[1, 2], [3, 4]];
            && Sized(queue, 2) && Drained(queue, 3, 2) == 1 && Drained(queue[1..], 3, 2) == 1
            && Bytes(queue)[..Copied(queue, 3)] + Bytes(queue[1..])[..Copied(queue[1..], 3)] == [1, 2, 3, 3, 4]
            && Bytes(queue) == [1, 2, 3, 4]
  {
    var queue: seq<Value> := [[1, 2], [3, 4]];
    assert queue[1..] == [[3, 4]] && queue[1..][1..] == [];
    assert Bytes(queue[1..]) == [3, 4] + Bytes([]);
    assert Bytes(queue) == [1, 2] + [3, 4];
  }
}
