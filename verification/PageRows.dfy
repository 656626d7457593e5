/** What the page operations do to the row slots of one page, with their status codes. */
module PageRows {
  import opened Common
  import opened Bytes

  type Row = seq<byte>
  type Slots = seq<Option<Row>>

  datatype WriteStatus = WriteOk | WriteOkButFull | WriteNotEmpty | WriteOutOfBound
  datatype RemoveStatus = RemoveOk | RemoveOkPageNotFull | RemoveOkPageFreed | RemoveBitmapError | RemoveOutOfBound

  ghost predicate NoRows(s: Slots) {
    forall i :: 0 <= i < |s| ==> s[i].None?
  }

  ghost predicate IsFull(s: Slots) {
    forall i :: 0 <= i < |s| ==> s[i].Some?
  }

  /** Index of the first empty slot at or after `from`, or -1. */
  function FirstEmptyFrom(s: Slots, from: nat): (r: int)
    ensures -1 <= r < |s|
    ensures r == -1 <==> forall i :: from <= i < |s| ==> s[i].Some?
    ensures r >= 0 ==> from <= r && s[r].None? && forall i :: from <= i < r ==> s[i].Some?
    decreases |s| - from
  {
    if from >= |s| then -1 else if s[from].None? then from else FirstEmptyFrom(s, from + 1)
  }

  function FirstEmpty(s: Slots): (r: int)
    ensures -1 <= r < |s|
    ensures r == -1 <==> IsFull(s)
    ensures r >= 0 ==> s[r].None? && forall i :: 0 <= i < r ==> s[i].Some?
  {
    FirstEmptyFrom(s, 0)
  }

  predicate AllEmpty(s: Slots)
    ensures AllEmpty(s) <==> NoRows(s)
  {
    forall i :: 0 <= i < |s| ==> s[i].None?
  }

  function WriteRow(s: Slots, i: nat, row: Row): (Slots, WriteStatus) {
    if i >= |s| then (s, WriteOutOfBound)
    else if s[i].Some? then (s, WriteNotEmpty)
    else
      var s' := s[i := Some(row)];
      (s', if FirstEmpty(s') == -1 then WriteOkButFull else WriteOk)
  }

  function ReplaceRow(s: Slots, i: nat, row: Row): (Slots, WriteStatus) {
    if i >= |s| then (s, WriteOutOfBound)
    else if s[i].None? then (s, WriteNotEmpty)
    else (s[i := Some(row)], WriteOk)
  }

  function RemoveRow(s: Slots, i: nat): (Slots, RemoveStatus) {
    if i >= |s| then (s, RemoveOutOfBound)
    else if s[i].None? then (s, RemoveBitmapError)
    else
      var s' := s[i := None];
      (s', if AllEmpty(s') then RemoveOkPageFreed
           else if FirstEmpty(s) == -1 then RemoveOkPageNotFull
           else RemoveOk)
  }

  /** `find_and_write_row`: the first empty slot takes the row. */
  function FindAndWriteRow(s: Slots, row: Row): (Slots, WriteStatus, nat) {
    var i := FirstEmpty(s);
    if i == -1 then (s, WriteOutOfBound, 0)
    else
      var (s', status) := WriteRow(s, i, row);
      (s', status, i)
  }
}
