/** The four actions of the puzzle and the two ways main.cpp names them:
    a key character ('w' up, 's' down, 'a' left, 'd' right) and an index
    0..3 into the action-value table. */
module Actions {

  datatype Option<T> = None | Some(value: T)

  /** True for the four keys the engine understands. */
  predicate IsMoveKey(c: char) {
    c == 'w' || c == 's' || c == 'a' || c == 'd'
  }

  /** Row and column offset of a key (main.cpp:178-181 and 303-306).
      Any other character leaves the cell where it is. */
  function Delta(move: char): (d: (int, int))
    ensures IsMoveKey(move) ==> (d.0 == 0) != (d.1 == 0) && -1 <= d.0 <= 1 && -1 <= d.1 <= 1
    ensures !IsMoveKey(move) ==> d == (0, 0)
    ensures move == 'w' || move == 's' <==> d.0 != 0
    ensures move == 'w' || move == 'a' <==> d.0 + d.1 == -1
  {
    if move == 'w' then (-1, 0)
    else if move == 's' then (1, 0)
    else if move == 'a' then (0, -1)
    else if move == 'd' then (0, 1)
    else (0, 0)
  }

  /** The table index of a key, as updateQValues computes it; None is its
      early return for any other character. */
  function ActionIndex(action: char): (r: Option<nat>)
    ensures r.Some? <==> IsMoveKey(action)
    ensures r.Some? ==> r.value < 4 && ActionChar(r.value) == action
  {
    if action == 'w' then Some(0)
    else if action == 's' then Some(1)
    else if action == 'a' then Some(2)
    else if action == 'd' then Some(3)
    else None
  }

  /** The key selectAction returns for an index; every index other than
      0, 1 and 2 falls to 'd'. */
  function ActionChar(index: int): (c: char)
    ensures IsMoveKey(c)
    ensures (index == 0 <==> c == 'w') && (index == 1 <==> c == 's') && (index == 2 <==> c == 'a')
  {
    if index == 0 then 'w'
    else if index == 1 then 's'
    else if index == 2 then 'a'
    else 'd'
  }

  /** Index to key to index is the identity on the four table columns. */
  lemma IndexCharRoundTrip(index: int)
    requires 0 <= index < 4
    ensures ActionIndex(ActionChar(index)) == Some(index)
  {
  }
}
