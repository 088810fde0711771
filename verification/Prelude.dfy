/** Types shared by every module. */
module Prelude {

  datatype Option<+T> = None | Some(value: T)

  datatype Result<+T, +E> = Ok(value: T) | Err(error: E)

  type byte = b: int | 0 <= b < 256

  /** A shell string as the bytes that hold it. */
  type Text = seq<byte>

  lemma Regroup<T>(a: seq<T>, b: seq<T>, c: seq<T>, d: seq<T>)
    ensures a + (b + c + d) == a + b + c + d
  {
  }

  lemma TakeDrop<T>(s: seq<T>, k: nat)
    requires k <= |s|
    ensures s[..k] + s[k..] == s
  {
  }

  lemma Assoc<T>(a: seq<T>, b: seq<T>, c: seq<T>)
    ensures a + (b + c) == a + b + c
  {
  }

  lemma ConcatHead<T>(s: seq<T>, u: seq<T>)
    requires s != []
    ensures (s + u)[0] == s[0] && (s + u)[1..] == s[1..] + u
  {
  }

  lemma DropSlice<T>(s: seq<T>, n: nat, i: nat, j: nat)
    requires i <= j && n + j <= |s|
    ensures s[n..][i..j] == s[n + i..n + j] && s[n..][j..] == s[n + j..]
  {
  }

  /** Where `b` first occurs; the length when it does not. */
  function FirstIndex(t: Text, b: byte): (i: nat)
    ensures i <= |t| && b !in t[..i] && (i < |t| ==> t[i] == b)
  {
    if t == [] || t[0] == b then 0 else
      var i := 1 + FirstIndex(t[1..], b);
      assert t[..i] == [t[0]] + t[1..][..i - 1];
      i
  }

  lemma {:induction false} FirstIndexIs(t: Text, b: byte, n: nat)
    requires n < |t| && t[n] == b && b !in t[..n]
    ensures FirstIndex(t, b) == n
  {
    if n > 0 {
      assert t[0] in t[..n] && t[1..][..n - 1] == t[..n][1..];
      FirstIndexIs(t[1..], b, n - 1);
    }
  }
}
