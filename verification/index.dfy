/** Index resolution: OBJ indices (1-based, negative counted from the end) and
    the bounds-checked table lookup every resolved index goes through. */
module Index {
  import opened Results

  /** Which negative-index rule the OBJ reader applies: the program's arithmetic
      (`AsWritten`) or the OBJ convention its comment describes, "-1 is the last
      element" (`Conventional`). Non-negative indices are treated alike. */
  datatype IndexPolicy = AsWritten | Conventional

  /** objIndexToArrayIndex as the program writes it. Positive indices count from 1;
      a negative index lands strictly past the end of the table, so only
      1..size ever name an element. */
  function ObjIndexToArrayIndex(index: int, size: int): (r: int)
    ensures index >= 0 ==> r + 1 == index
    ensures index < 0 ==> r > size
    ensures 0 <= r < size <==> 1 <= index <= size
  {
    if index < 0 then size - index else index - 1
  }

  /** The conventional OBJ rule: -1 names the last element, -size the first. */
  function ObjIndexConventional(index: int, size: int): (r: int)
    ensures index >= 0 ==> r + 1 == index
    ensures index < 0 ==> r - size == index
    ensures 0 <= r < size <==> (1 <= index <= size || -size <= index <= -1)
  {
    if index < 0 then size + index else index - 1
  }

  /** The indices that name an element of a table of `size` entries under `policy`. */
  predicate Names(policy: IndexPolicy, index: int, size: int)
  {
    1 <= index <= size || (policy == Conventional && -size <= index <= -1)
  }

  function Resolve(policy: IndexPolicy, index: int, size: int): (r: int)
    ensures 0 <= r < size <==> Names(policy, index, size)
  {
    match policy
    case AsWritten => ObjIndexToArrayIndex(index, size)
    case Conventional => ObjIndexConventional(index, size)
  }

  /** A Go slice index: in range, or a panic. */
  function Lookup<T>(table: seq<T>, i: int): (r: Result<T>)
    ensures r.Ok? <==> 0 <= i < |table|
    ensures r.Ok? ==> r.value == table[i]
    ensures r.Err? ==> r.error == IndexOutOfRange
  {
    if 0 <= i < |table| then Ok(table[i]) else Err(IndexOutOfRange)
  }

  /** As written, -1 does not name the last element: it resolves one past the
      end, and every negative index fails the lookup. */
  lemma MinusOneIsPastTheEnd<T>(table: seq<T>)
    requires |table| > 0
    ensures ObjIndexToArrayIndex(-1, |table|) == |table| + 1
    ensures Lookup(table, ObjIndexToArrayIndex(-1, |table|)).Err?
  {
  }

  /** Under the conventional rule, -1 names the last element and -k the k-th from
      the end. */
  lemma ConventionalCountsFromTheEnd<T>(table: seq<T>, k: int)
    requires 1 <= k <= |table|
    ensures Lookup(table, ObjIndexConventional(-k, |table|)) == Ok(table[|table| - k])
    ensures Lookup(table, ObjIndexConventional(-1, |table|)) == Ok(table[|table| - 1])
  {
  }
}
