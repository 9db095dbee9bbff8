/** The inbound side of the socket: the bytes the server has sent, as the
    sequence of chunks successive `recv` calls can deliver. An exhausted chunk
    sequence is a closed connection, on which `recv` returns `b''` forever. */
module Chunks {
  import opened Types

  type Stream = seq<seq<Byte>>

  /** The bytes of the stream in delivery order. */
  function Flatten(s: Stream): seq<Byte> {
    if s == [] then [] else s[0] + Flatten(s[1..])
  }

  /** A live TCP socket never hands out an empty chunk before end of stream. */
  predicate WellFormed(s: Stream) {
    forall i :: 0 <= i < |s| ==> s[i] != []
  }

  /** Where one run of chunks ends and the next begins does not change the bytes. */
  lemma {:induction false} FlattenAppend(a: Stream, b: Stream)
    ensures Flatten(a + b) == Flatten(a) + Flatten(b)
  {
    if a == [] {
      assert a + b == b;
    } else {
      assert (a + b)[1..] == a[1..] + b;
      FlattenAppend(a[1..], b);
    }
  }

  /** `recv(n)`: at most `n` bytes from the head chunk; whatever the head chunk
      holds beyond `n` stays in the stream. On a closed stream, and for `n == 0`,
      it returns no bytes and consumes nothing. */
  function Recv(s: Stream, n: nat): (r: (seq<Byte>, Stream))
    ensures r.0 + Flatten(r.1) == Flatten(s)
    ensures |r.0| <= n
    ensures n > 0 && s != [] && s[0] != [] ==> r.0 != []
    ensures n > 0 && s != [] && r.0 == [] ==> |r.1| < |s|
    ensures |r.1| <= |s|
    ensures WellFormed(s) ==> WellFormed(r.1)
    ensures s == [] ==> r == ([], s)
  {
    if n == 0 || s == [] then ([], s)
    else if |s[0]| <= n then (s[0], s[1..])
    else
      var rest := [s[0][n..]] + s[1..];
      assert rest[1..] == s[1..];
      assert s[0] == s[0][..n] + s[0][n..];
      (s[0][..n], rest)
  }
}
