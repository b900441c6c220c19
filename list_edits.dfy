/** The list edits the merge and image screens perform on their ordered file lists. */
module ListEdits {

  /** `list.filter((_, i) => i !== index)`: an index outside the list removes nothing. */
  function RemoveAt<T>(s: seq<T>, index: int): (r: seq<T>)
    ensures 0 <= index < |s| ==> |r| == |s| - 1
    ensures 0 <= index < |s| ==> forall j | 0 <= j < index :: r[j] == s[j]
    ensures 0 <= index < |s| ==> forall j | index <= j < |r| :: r[j] == s[j + 1]
    ensures !(0 <= index < |s|) ==> r == s
  {
    if 0 <= index < |s| then s[..index] + s[index + 1..] else s
  }

  /** Removing one element keeps every other element: the removed one plus the rest is the old list. */
  lemma RemoveAtMultiset<T>(s: seq<T>, index: int)
    requires 0 <= index < |s|
    ensures multiset(RemoveAt(s, index)) + multiset{s[index]} == multiset(s)
  {
    assert s == s[..index] + [s[index]] + s[index + 1..];
  }

  /** The neighbour `movePdf(index, direction)` swaps with. */
  function Neighbour(index: int, up: bool): int
  {
    if up then index - 1 else index + 1
  }

  /** `movePdf(index, direction)`: swap with the neighbour, or no change when the
      neighbour lies outside the list. */
  function Move<T>(s: seq<T>, index: int, up: bool): (r: seq<T>)
    requires 0 <= index < |s|
    ensures |r| == |s| && multiset(r) == multiset(s)
    ensures var n := Neighbour(index, up);
      if 0 <= n < |s| then
        r[index] == s[n] && r[n] == s[index] && forall j | 0 <= j < |s| && j != index && j != n :: r[j] == s[j]
      else r == s
  {
    var n := Neighbour(index, up);
    if n < 0 || n >= |s| then s
    else s[index := s[n]][n := s[index]]
  }

  /** Moving an element up and then moving it back down restores the list. */
  lemma MoveUpThenDown<T>(s: seq<T>, index: int)
    requires 0 < index < |s|
    ensures Move(Move(s, index, true), index - 1, false) == s
  {
    var once := Move(s, index, true);
    var twice := Move(once, index - 1, false);
    assert forall j | 0 <= j < |s| :: twice[j] == s[j];
  }
}
