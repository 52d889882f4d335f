/** The cursor arithmetic every list panel shares: `increment_active_selection`
    and the two forms of `decrement_active_selection` (one guards an empty list,
    the others compute `len - 1` unguarded). */
module Selection {
  import opened Types

  /** `selected += 1; if selected >= len { selected = 0 }`. */
  function Next(selected: nat, len: nat): (r: nat)
    ensures len > 0 ==> r < len
    ensures len == 0 ==> r == 0
  {
    if selected + 1 >= len then 0 else selected + 1
  }

  /** The guarded decrement: nothing happens on an empty list; 0 wraps to the
      last index; any other index moves down by one. */
  function PrevGuarded(selected: nat, len: nat): (r: nat)
    ensures len == 0 ==> r == selected
    ensures selected < len ==> r < len
    ensures 0 < selected ==> r == selected - 1 || len == 0
    ensures selected == 0 && len > 0 ==> r == len - 1
  {
    if len == 0 then selected
    else if selected == 0 then len - 1
    else selected - 1
  }

  /** The unguarded decrement: at index 0 it computes `len - 1`, which underflows
      (a panic, `None`) when the list is empty. */
  function PrevUnguarded(selected: nat, len: nat): (r: Option<nat>)
    ensures r.None? <==> selected == 0 && len == 0
    ensures selected < len ==> r.Some? && r.value < len
    ensures 0 < selected ==> r == Some(selected - 1)
    ensures selected == 0 && len > 0 ==> r == Some(len - 1)
  {
    if selected == 0 then
      if len == 0 then None else Some(len - 1)
    else
      Some(selected - 1)
  }

  /** On a non-empty list with the cursor in range, a step down undoes a step up
      and a step up undoes a step down, for both decrement forms. */
  lemma NextPrevInverse(selected: nat, len: nat)
    requires selected < len
    ensures PrevGuarded(Next(selected, len), len) == selected
    ensures Next(PrevGuarded(selected, len), len) == selected
    ensures PrevUnguarded(Next(selected, len), len) == Some(selected)
    ensures Next(PrevUnguarded(selected, len).value, len) == selected
  {
  }

  /** The cursor after `k` increments. */
  function Steps(selected: nat, len: nat, k: nat): nat
  {
    if k == 0 then selected else Next(Steps(selected, len, k - 1), len)
  }

  /** Increment is rotation: within one round of `k <= len` steps an in-range
      cursor moves to `selected + k`, wrapping once past the end. */
  lemma {:induction false} StepsRotate(selected: nat, len: nat, k: nat)
    requires selected < len && k <= len
    ensures Steps(selected, len, k) == if selected + k < len then selected + k else selected + k - len
  {
    if k > 0 {
      StepsRotate(selected, len, k - 1);
    }
  }

  /** Incrementing `len` times brings a cursor back to where it started. */
  lemma FullCycle(selected: nat, len: nat)
    requires selected < len
    ensures Steps(selected, len, len) == selected
  {
    StepsRotate(selected, len, len);
  }
}
