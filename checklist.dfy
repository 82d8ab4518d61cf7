/** The Schengen document checklist of components/VisaResult.tsx: sixteen
    items the applicant ticks off, each with an optional note, and the
    completion percentage shown above them. */
module Checklist {

  datatype ChecklistItem = ChecklistItem(id: int, text: string, checked: bool, note: string, showNote: bool)

  /** The documents listed, in order; the item with id k + 1 has text k. */
  const ItemTexts: seq<string> := [
    "الموعد (Appointment)",
    "القيد الفردي أو العائلي",
    "تأمين السفر (Travel Insurance)",
    "قيد المدارس (للطلاب)",
    "شهادة التحركات / صور التأشيرات السابقة",
    "السجل التجاري / البطاقة الضريبية",
    "الأبليكشن (Application Form)",
    "HR Letter (خطاب العمل)",
    "خطة السفر / تيكيت المعرض / الدعوة",
    "مستندات خاصة بالعمل",
    "المراسلات (Correspondence)",
    "أملاك (عقود ملكية)",
    "حجز الطيران (مبدئي/مؤكد)",
    "كروت إئتمان (Credit Cards)",
    "حجز الفندق (Hotel Booking)",
    "كشف حساب بنكي (Bank Statement)"]

  /** The list the component starts from. */
  function InitialItems(): seq<ChecklistItem>
  {
    seq(16, k requires 0 <= k < 16 => ChecklistItem(k + 1, ItemTexts[k], false, "", false))
  }

  predicate UniqueIds(items: seq<ChecklistItem>)
  {
    forall i, j :: 0 <= i < j < |items| ==> items[i].id != items[j].id
  }

  /** toggleItem's `map`: flips `checked` on the items with this id. */
  function ToggleChecked(items: seq<ChecklistItem>, id: int): (r: seq<ChecklistItem>)
    ensures |r| == |items|
    ensures forall k :: 0 <= k < |r| ==> r[k].id == items[k].id && r[k].text == items[k].text
  {
    seq(|items|, k requires 0 <= k < |items| =>
      if items[k].id == id then items[k].(checked := !items[k].checked) else items[k])
  }

  /** toggleNoteVisibility's `map`: flips `showNote` on the items with this id. */
  function ToggleShowNote(items: seq<ChecklistItem>, id: int): (r: seq<ChecklistItem>)
    ensures |r| == |items|
    ensures forall k :: 0 <= k < |r| ==> r[k].id == items[k].id && r[k].text == items[k].text
  {
    seq(|items|, k requires 0 <= k < |items| =>
      if items[k].id == id then items[k].(showNote := !items[k].showNote) else items[k])
  }

  /** updateNote's `map`: replaces the note of the items with this id. */
  function SetNote(items: seq<ChecklistItem>, id: int, text: string): (r: seq<ChecklistItem>)
    ensures |r| == |items|
    ensures forall k :: 0 <= k < |r| ==> r[k].id == items[k].id && r[k].text == items[k].text
  {
    seq(|items|, k requires 0 <= k < |items| =>
      if items[k].id == id then items[k].(note := text) else items[k])
  }

  /** `items.filter(i => i.checked).length`. */
  function CheckedCount(items: seq<ChecklistItem>): (n: nat)
    ensures n <= |items|
  {
    if items == [] then 0 else (if items[0].checked then 1 else 0) + CheckedCount(items[1..])
  }

  /** `Math.round(a / b)` for non-negative `a`: the integer nearest to a / b,
      halves rounded up. */
  function RoundHalfUp(a: nat, b: nat): (r: nat)
    requires b > 0
    ensures 2 * b * r <= 2 * a + b < 2 * b * (r + 1)
  {
    (2 * a + b) / (2 * b)
  }

  /** The percentage shown: `Math.round((checked / total) * 100)`. */
  function ProgressOf(items: seq<ChecklistItem>): nat
    requires |items| > 0
  {
    RoundHalfUp(100 * CheckedCount(items), |items|)
  }

  predicate AllChecked(items: seq<ChecklistItem>)
  {
    forall k :: 0 <= k < |items| ==> items[k].checked
  }

  predicate NoneChecked(items: seq<ChecklistItem>)
  {
    forall k :: 0 <= k < |items| ==> !items[k].checked
  }

  // ---------------------------------------------------------------------
  // What the three updates do

  /** Toggling an item changes only that item, and of it only `checked`. */
  lemma ToggleCheckedOnlyMatching(items: seq<ChecklistItem>, id: int)
    ensures var r := ToggleChecked(items, id);
      && |r| == |items|
      && (forall k :: 0 <= k < |items| && items[k].id != id ==> r[k] == items[k])
      && (forall k :: 0 <= k < |items| && items[k].id == id ==>
            r[k].checked != items[k].checked && r[k].(checked := items[k].checked) == items[k])
  {
  }

  /** Showing or hiding a note changes only that item, and of it only
      `showNote`. */
  lemma ToggleShowNoteOnlyMatching(items: seq<ChecklistItem>, id: int)
    ensures var r := ToggleShowNote(items, id);
      && |r| == |items|
      && (forall k :: 0 <= k < |items| && items[k].id != id ==> r[k] == items[k])
      && (forall k :: 0 <= k < |items| && items[k].id == id ==>
            r[k].showNote != items[k].showNote && r[k].(showNote := items[k].showNote) == items[k])
  {
  }

  /** Editing a note changes only that item's note, to the text typed. */
  lemma SetNoteOnlyMatching(items: seq<ChecklistItem>, id: int, text: string)
    ensures var r := SetNote(items, id, text);
      && |r| == |items|
      && (forall k :: 0 <= k < |items| && items[k].id != id ==> r[k] == items[k])
      && (forall k :: 0 <= k < |items| && items[k].id == id ==>
            r[k].note == text && r[k].(note := items[k].note) == items[k])
  {
  }

  /** Ticking an item twice leaves the list as it was. */
  lemma ToggleCheckedTwice(items: seq<ChecklistItem>, id: int)
    ensures ToggleChecked(ToggleChecked(items, id), id) == items
  {
    var r := ToggleChecked(ToggleChecked(items, id), id);
    forall k | 0 <= k < |items|
      ensures r[k] == items[k]
    {
    }
  }

  /** Opening and closing a note leaves the list as it was. */
  lemma ToggleShowNoteTwice(items: seq<ChecklistItem>, id: int)
    ensures ToggleShowNote(ToggleShowNote(items, id), id) == items
  {
    var r := ToggleShowNote(ToggleShowNote(items, id), id);
    forall k | 0 <= k < |items|
      ensures r[k] == items[k]
    {
    }
  }

  /** Only the last edit of a note counts. */
  lemma SetNoteLastWins(items: seq<ChecklistItem>, id: int, a: string, b: string)
    ensures SetNote(SetNote(items, id, a), id, b) == SetNote(items, id, b)
  {
  }

  /** An id no item carries changes nothing. */
  lemma UnknownIdNoChange(items: seq<ChecklistItem>, id: int, text: string)
    requires forall k :: 0 <= k < |items| ==> items[k].id != id
    ensures ToggleChecked(items, id) == items
    ensures ToggleShowNote(items, id) == items
    ensures SetNote(items, id, text) == items
  {
  }

  // ---------------------------------------------------------------------
  // Progress

  /** Two lists that differ at most at position `i` differ in their count
      of ticked items by what position `i` contributes. */
  lemma {:induction false} CheckedCountPointwise(a: seq<ChecklistItem>, b: seq<ChecklistItem>, i: int)
    requires |a| == |b| && 0 <= i < |a|
    requires forall k :: 0 <= k < |a| && k != i ==> a[k].checked == b[k].checked
    ensures CheckedCount(b) + (if a[i].checked then 1 else 0) == CheckedCount(a) + (if b[i].checked then 1 else 0)
    decreases |a|
  {
    if i > 0 {
      CheckedCountPointwise(a[1..], b[1..], i - 1);
    } else {
      CheckedCountSame(a[1..], b[1..]);
    }
  }

  lemma {:induction false} CheckedCountSame(a: seq<ChecklistItem>, b: seq<ChecklistItem>)
    requires |a| == |b|
    requires forall k :: 0 <= k < |a| ==> a[k].checked == b[k].checked
    ensures CheckedCount(a) == CheckedCount(b)
    decreases |a|
  {
    if a != [] {
      CheckedCountSame(a[1..], b[1..]);
    }
  }

  lemma {:induction false} CheckedCountAll(items: seq<ChecklistItem>)
    ensures CheckedCount(items) == |items| <==> AllChecked(items)
    ensures CheckedCount(items) == 0 <==> NoneChecked(items)
    decreases |items|
  {
    if items != [] {
      CheckedCountAll(items[1..]);
      assert AllChecked(items) <==> items[0].checked && AllChecked(items[1..]);
      assert NoneChecked(items) <==> !items[0].checked && NoneChecked(items[1..]);
    }
  }

  /** Ticking the item with a given id, when ids are unique, moves the
      count of ticked items by exactly one. */
  lemma {:induction false} ToggleCheckedCount(items: seq<ChecklistItem>, id: int, i: int)
    requires UniqueIds(items) && 0 <= i < |items| && items[i].id == id
    ensures CheckedCount(ToggleChecked(items, id))
         == if items[i].checked then CheckedCount(items) - 1 else CheckedCount(items) + 1
  {
    OthersUntouched(items, id, i);
    ToggleOnlyAt(items, id, i);
  }

  lemma {:induction false} ToggleOnlyAt(items: seq<ChecklistItem>, id: int, i: int)
    requires 0 <= i < |items| && items[i].id == id
    requires forall k :: 0 <= k < |items| && k != i ==> items[k].id != id
    ensures CheckedCount(ToggleChecked(items, id))
         == if items[i].checked then CheckedCount(items) - 1 else CheckedCount(items) + 1
  {
    var r := ToggleChecked(items, id);
    assert |r| == |items| && r[i].checked == !items[i].checked;
    assert forall k :: 0 <= k < |items| && k != i ==> items[k].checked == r[k].checked;
    CheckedCountPointwise(items, r, i);
  }

  /** With unique ids, only position `i` carries the id of item `i`. */
  lemma OthersUntouched(items: seq<ChecklistItem>, id: int, i: int)
    requires UniqueIds(items) && 0 <= i < |items| && items[i].id == id
    ensures forall k :: 0 <= k < |items| && k != i ==> items[k].id != id
  {
  }

  /** Notes do not move the progress bar. */
  lemma NotesKeepCount(items: seq<ChecklistItem>, id: int, text: string)
    ensures CheckedCount(ToggleShowNote(items, id)) == CheckedCount(items)
    ensures CheckedCount(SetNote(items, id, text)) == CheckedCount(items)
  {
    CheckedCountSame(items, ToggleShowNote(items, id));
    CheckedCountSame(items, SetNote(items, id, text));
  }

  lemma MulMono(c: int, x: int, y: int)
    requires c >= 0 && x <= y
    ensures c * x <= c * y
  {
    assert c * y - c * x == c * (y - x);
  }

  /** Rounding returns the one integer within a half of a / b. */
  lemma RoundHalfUpUnique(a: nat, b: nat, r: nat)
    requires b > 0
    requires 2 * b * r <= 2 * a + b < 2 * b * (r + 1)
    ensures RoundHalfUp(a, b) == r
  {
    var q := RoundHalfUp(a, b);
    if q < r {
      MulMono(2 * b, q + 1, r);
    } else if q > r {
      MulMono(2 * b, r + 1, q);
    }
  }

  /** The percentage lies between 0 and 100. */
  lemma ProgressBounds(items: seq<ChecklistItem>)
    requires |items| > 0
    ensures ProgressOf(items) <= 100
  {
    var n, p := |items|, ProgressOf(items);
    if p > 100 {
      MulMono(2 * n, 101, p);
    }
  }

  /** With fewer than 200 items, the bar shows 100 exactly when everything
      is ticked and 0 exactly when nothing is: one item always moves it by
      at least half a percent. */
  lemma ProgressExtremes(items: seq<ChecklistItem>)
    requires 0 < |items| < 200
    ensures ProgressOf(items) == 100 <==> AllChecked(items)
    ensures ProgressOf(items) == 0 <==> NoneChecked(items)
  {
    var n, c := |items|, CheckedCount(items);
    CheckedCountAll(items);
    if c == n {
      RoundHalfUpUnique(100 * c, n, 100);
    }
    if c == 0 {
      RoundHalfUpUnique(0, n, 0);
    }
  }

  /** The list starts with ids 1 to 16, no two alike, nothing ticked, no
      notes, and the bar at 0. */
  lemma InitialChecklist()
    ensures |InitialItems()| == 16
    ensures forall k :: 0 <= k < 16 ==> InitialItems()[k].id == k + 1
    ensures UniqueIds(InitialItems())
    ensures NoneChecked(InitialItems())
    ensures forall k :: 0 <= k < 16 ==> InitialItems()[k].note == "" && !InitialItems()[k].showNote
    ensures ProgressOf(InitialItems()) == 0
  {
    ProgressExtremes(InitialItems());
  }

  // ---------------------------------------------------------------------
  // The component's state

  /** The `items` state of the SchengenChecklist component; each handler
      replaces it by the mapped list, as `setItems` does. */
  class SchengenChecklist {
    var items: seq<ChecklistItem>

    /** Sixteen items with distinct ids, as the component keeps them. */
    ghost predicate Valid()
      reads this
    {
      |items| == 16 && UniqueIds(items)
    }

    constructor ()
      ensures Valid() && items == InitialItems()
    {
      items := InitialItems();
      InitialChecklist();
    }

    /** toggleItem. */
    method ToggleItem(id: int)
      requires Valid()
      modifies this
      ensures Valid() && items == ToggleChecked(old(items), id)
    {
      items := ToggleChecked(items, id);
    }

    /** toggleNoteVisibility. */
    method ToggleNoteVisibility(id: int)
      requires Valid()
      modifies this
      ensures Valid() && items == ToggleShowNote(old(items), id)
    {
      items := ToggleShowNote(items, id);
    }

    /** updateNote. */
    method UpdateNote(id: int, text: string)
      requires Valid()
      modifies this
      ensures Valid() && items == SetNote(old(items), id, text)
    {
      items := SetNote(items, id, text);
    }

    /** The percentage rendered above the list. */
    function Progress(): (p: nat)
      requires Valid()
      reads this
      ensures p <= 100
      ensures p == 100 <==> AllChecked(items)
      ensures p == 0 <==> NoneChecked(items)
    {
      ProgressBounds(items);
      ProgressExtremes(items);
      ProgressOf(items)
    }
  }
}
