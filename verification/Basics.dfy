/** Bytes, C strings and the Option type shared by the other modules. */
module Basics {

  /** A value or its absence; `:-` stops a decoder at the first short read. */
  datatype Option<+T> = None | Some(value: T) {
    predicate IsFailure() {
      None?
    }

    function PropagateFailure<U>(): Option<U>
      requires None?
    {
      None
    }

    function Extract(): T
      requires Some?
    {
      value
    }
  }

  type byte = x: int | 0 <= x < 256

  type Bytes = seq<byte>

  /** The characters of a C string, its terminator left out. */
  type CString = s: Bytes | 0 !in s witness []

  const UINT32_RANGE: nat := 0x1_0000_0000
  const INT32_RANGE: nat := 0x8000_0000

  /** What `strlen` and `strcmp` see of a buffer that was filled and then terminated. */
  function UntilNul(b: Bytes): (r: CString)
    ensures r <= b
    ensures |r| < |b| ==> b[|r|] == 0
  {
    if |b| == 0 || b[0] == 0 then [] else [b[0]] + UntilNul(b[1..])
  }

  lemma {:induction false} UntilNulOfCString(s: CString)
    ensures UntilNul(s) == s
  {
    if |s| > 0 {
      assert s[1..] <= s[1..] && forall x :: x in s[1..] ==> x in s;
      UntilNulOfCString(s[1..]);
    }
  }
}
