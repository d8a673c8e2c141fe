/** Stock result types and the one Python idiom several modules share. */
module Common {
  datatype Option<+T> = None | Some(value: T)

  datatype Result<+T, +E> = Ok(value: T) | Err(error: E)

  /** Where the Python slice `s[:k]` of a list of `n` elements ends; a negative `k` counts from the back. */
  function SliceEnd(n: nat, k: int): (end: nat)
    ensures end <= n
    ensures 0 <= k ==> end <= k
  {
    if 0 <= k then (if k < n then k else n)
    else if n + k < 0 then 0 else n + k
  }
}
