/** The byte transform of `_decode_pro`: the key is the concatenation of short byte
    fragments, and payload byte `i` is XOR-ed with key byte `i % len(key)`. The result
    is treated as opaque bytes; what the program later does with it is not modelled. */
module Payload {
  import opened Wrappers

  type Byte = bv8

  /** Python's `^` on two bytes. */
  function Xor(a: Byte, b: Byte): Byte
  {
    a ^ b
  }

  /** The combined length of all fragments. */
  function TotalLength(fragments: seq<seq<Byte>>): nat
  {
    if |fragments| == 0 then 0 else |fragments[0]| + TotalLength(fragments[1..])
  }

  /** `b"".join(fragments)`: the fragments one after another, so the key is as long as
      all of them together, starts with the first, and is non-empty exactly when some
      fragment is. */
  function Join(fragments: seq<seq<Byte>>): (key: seq<Byte>)
    ensures |key| == TotalLength(fragments)
    ensures |fragments| > 0 ==> key[..|fragments[0]|] == fragments[0]
    ensures |key| > 0 <==> exists i :: 0 <= i < |fragments| && |fragments[i]| > 0
  {
    if |fragments| == 0 then []
    else
      var key := fragments[0] + Join(fragments[1..]);
      assert forall i :: 1 <= i < |fragments| ==> fragments[i] == fragments[1..][i - 1];
      key
  }

  /** Joining one fragment gives that fragment. */
  lemma JoinSingleton(f: seq<Byte>)
    ensures Join([f]) == f
  {
    assert [f][1..] == [];
  }

  /** Joining two lists of fragments one after the other is joining their
      concatenation: with `JoinSingleton`, each fragment appears whole and in order. */
  lemma {:induction false} JoinConcat(a: seq<seq<Byte>>, b: seq<seq<Byte>>)
    ensures Join(a + b) == Join(a) + Join(b)
  {
    if |a| == 0 {
      assert a + b == b;
    } else {
      assert (a + b)[0] == a[0];
      assert (a + b)[1..] == a[1..] + b;
      calc {
        Join(a + b);
        a[0] + Join(a[1..] + b);
        { JoinConcat(a[1..], b); }
        a[0] + (Join(a[1..]) + Join(b));
        (a[0] + Join(a[1..])) + Join(b);
        Join(a) + Join(b);
      }
    }
  }

  /** XOR each payload byte, from position `start` on, with the key repeated. */
  function XorFrom(payload: seq<Byte>, key: seq<Byte>, start: nat): (out: seq<Byte>)
    requires |payload| > 0 ==> |key| > 0
    ensures |out| == |payload|
    ensures forall i :: 0 <= i < |payload| ==> out[i] == Xor(payload[i], key[(start + i) % |key|])
    decreases |payload|
  {
    if |payload| == 0 then []
    else
      var rest := XorFrom(payload[1..], key, start + 1);
      assert forall i :: 1 <= i < |payload| ==> rest[i - 1] == Xor(payload[i], key[(start + i) % |key|]);
      [Xor(payload[0], key[start % |key|])] + rest
  }

  /** `bytes([b ^ k[i % len(k)] for i, b in enumerate(payload)])` on bytes. An empty
      payload never reads the key, so only a non-empty payload needs a non-empty key. */
  function RepeatingXor(payload: seq<Byte>, key: seq<Byte>): (out: seq<Byte>)
    requires |payload| > 0 ==> |key| > 0
    ensures |out| == |payload|
    ensures forall i :: 0 <= i < |payload| ==> out[i] == Xor(payload[i], key[i % |key|])
  {
    XorFrom(payload, key, 0)
  }

  /** Applying the transform twice with the same key gives the payload back. */
  lemma RepeatingXorInvolution(payload: seq<Byte>, key: seq<Byte>)
    requires |payload| > 0 ==> |key| > 0
    ensures RepeatingXor(RepeatingXor(payload, key), key) == payload
  {
    var once := RepeatingXor(payload, key);
    var twice := RepeatingXor(once, key);
    forall i | 0 <= i < |payload|
      ensures twice[i] == payload[i]
    {
      XorCancels(payload[i], key[i % |key|]);
    }
  }

  lemma XorCancels(a: Byte, b: Byte)
    ensures Xor(Xor(a, b), b) == a
  {}

  /** The failures of line 81 on a list of Python integers. */
  datatype Error =
    | EmptyKey        // ZeroDivisionError: `i % len(k)` with an empty key
    | NotAByte        // ValueError: `bytes([...])` given a value outside 0..255

  predicate IsByte(x: int)
  {
    0 <= x < 256
  }

  /** A Python integer in 0..255 as a byte of the same value. */
  function ByteOf(x: int): Byte
    requires 0 <= x < 256
  {
    x as Byte
  }

  /** Python integers in 0..255 as bytes, value for value (`bytes(xs)`). */
  function ToBytes(xs: seq<int>): (b: seq<Byte>)
    requires forall i :: 0 <= i < |xs| ==> 0 <= xs[i] < 256
    ensures |b| == |xs|
    ensures forall i :: 0 <= i < |xs| ==> b[i] == ByteOf(xs[i])
  {
    if |xs| == 0 then []
    else
      var rest := ToBytes(xs[1..]);
      assert forall i :: 1 <= i < |xs| ==> xs[i] == xs[1..][i - 1];
      [ByteOf(xs[0])] + rest
  }

  /** Line 81 on the payload as Python integers. The comprehension divides by the key
      length first, and `bytes` then rejects any value outside 0..255; an XOR with a key
      byte stays in 0..255 exactly when the payload value does. On success the output
      has the payload's length, and XOR-ing it again with the key gives the payload back. */
  function XorPayload(payload: seq<int>, key: seq<Byte>): (r: Result<seq<Byte>, Error>)
    ensures r.Ok? <==> (|payload| == 0 || |key| > 0) && forall i :: 0 <= i < |payload| ==> IsByte(payload[i])
    ensures |payload| > 0 && |key| == 0 ==> r == Err(EmptyKey)
    ensures (|payload| == 0 || |key| > 0) && (exists i :: 0 <= i < |payload| && !IsByte(payload[i])) ==> r == Err(NotAByte)
    ensures r.Ok? ==> |r.value| == |payload|
    ensures r.Ok? ==> forall i :: 0 <= i < |payload| ==> Xor(r.value[i], key[i % |key|]) == ByteOf(payload[i])
  {
    if |payload| > 0 && |key| == 0 then Err(EmptyKey)
    else if exists i :: 0 <= i < |payload| && !IsByte(payload[i]) then Err(NotAByte)
    else
      var bytes := ToBytes(payload);
      var out := RepeatingXor(bytes, key);
      assert forall i :: 0 <= i < |payload| ==> Xor(out[i], key[i % |key|]) == bytes[i] by {
        forall i | 0 <= i < |payload| {
          XorCancels(bytes[i], key[i % |key|]);
        }
      }
      Ok(out)
  }

  /** Lines 79-81 together: the key is the join of the fragments, so the transform
      fails on a non-empty payload exactly when every fragment is empty, or when a
      value is not a byte; otherwise XOR-ing the output again with the joined key,
      repeated, recovers the payload. */
  function XorWithFragments(payload: seq<int>, fragments: seq<seq<Byte>>): (r: Result<seq<Byte>, Error>)
    ensures r.Ok? <==> (|payload| == 0 || exists j :: 0 <= j < |fragments| && |fragments[j]| > 0)
                       && forall i :: 0 <= i < |payload| ==> IsByte(payload[i])
    ensures r.Ok? ==> |r.value| == |payload|
    ensures r.Ok? ==> forall i :: 0 <= i < |payload| ==>
                        Xor(r.value[i], Join(fragments)[i % TotalLength(fragments)]) == ByteOf(payload[i])
  {
    XorPayload(payload, Join(fragments))
  }
}
