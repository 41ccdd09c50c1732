/** Shared vocabulary: optional values, bytes, and the concatenation of byte parts
    (what `new Blob(parts)` does to a list of ArrayBuffers). */
module Common {

  datatype Option<+T> = None | Some(value: T)

  /** One octet of an ArrayBuffer / Uint8Array. */
  type byte = x: int | 0 <= x < 256

  /** Concatenation of the parts in order. */
  function Flatten<T>(parts: seq<seq<T>>): seq<T>
  {
    if parts == [] then [] else Flatten(parts[..|parts| - 1]) + parts[|parts| - 1]
  }

  /** Concatenation distributes over appending lists of parts. */
  lemma {:induction false} FlattenAppend<T>(a: seq<seq<T>>, b: seq<seq<T>>)
    ensures Flatten(a + b) == Flatten(a) + Flatten(b)
    decreases |b|
  {
    if b == [] {
      assert a + b == a;
    } else {
      var b' := b[..|b| - 1];
      assert (a + b)[..|a + b| - 1] == a + b';
      FlattenAppend(a, b');
    }
  }

  function Min(a: int, b: int): int { if a < b then a else b }
  function Max(a: int, b: int): int { if a < b then b else a }
}
