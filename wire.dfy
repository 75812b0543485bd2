/** Values exchanged with the transport: bytes, read results, and the
    outcome sequences that stand in for the socket library's error returns. */
module Wire {

  /** A Go `byte`. Go strings are byte sequences, so tokens and query values
      are modelled as `seq<byte>` as well. */
  newtype byte = b: int | 0 <= b < 256

  datatype Option<T> = None | Some(value: T)

  /** The result of one `ReadMessage` call: a payload, or an error. */
  datatype ReadResult = Frame(payload: seq<byte>) | ReadError

  /** The index of the first `false` in `s`, or `|s|` when there is none:
      the step at which a loop that stops at the first failed call stops. */
  function FirstFalse(s: seq<bool>): (k: nat)
    ensures k <= |s|
    ensures forall j :: 0 <= j < k ==> s[j]
    ensures k < |s| ==> !s[k]
  {
    if s == [] then 0
    else if !s[0] then 0
    else 1 + FirstFalse(s[1..])
  }

  /** An index is the first failure exactly when it fails and everything
      before it succeeds; so `FirstFalse` is the only such index. */
  lemma FirstFalseUnique(s: seq<bool>, k: nat)
    requires k <= |s|
    requires forall j :: 0 <= j < k ==> s[j]
    requires k < |s| ==> !s[k]
    ensures FirstFalse(s) == k
  {
  }
}
