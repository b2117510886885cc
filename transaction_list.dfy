/**
 * The mobile transaction list: grouping the date-ordered transactions into
 * date sections (the `sections` memo), and the selection rules of the list and
 * of its floating action bar (row press, link/unlink choice, batch menus,
 * clear button, visibility and count label).
 *
 * `isPreviewId` (from the shared transactions helpers) is not part of this
 * model: every member that needs it takes it as a parameter.
 */
module TransactionList {
  import opened Wrappers
  import Decimal

  /** A transaction record. Only `isLast` is ever written by the list. */
  class Transaction {
    const id: string
    const date: string
    /** The id of the linked schedule, if any (`t.schedule`). */
    const schedule: Option<string>
    var isLast: bool

    constructor (id: string, date: string, schedule: Option<string>, isLast: bool)
      ensures this.id == id && this.date == date && this.schedule == schedule
      ensures this.isLast == isLast
    {
      this.id := id;
      this.date := date;
      this.schedule := schedule;
      this.isLast := isLast;
    }
  }

  /** One date section of the list: `{ id, date, data }`. */
  datatype Section = Section(id: string, date: string, data: seq<Transaction>)

  function Last<T>(s: seq<T>): T
    requires |s| > 0
  {
    s[|s| - 1]
  }

  function DropLast<T>(s: seq<T>): seq<T>
    requires |s| > 0
  {
    s[..|s| - 1]
  }

  // ---------------------------------------------------------------------------
  // Date sections
  // ---------------------------------------------------------------------------

  /** The key of the section a transaction opens: its date, prefixed when it is a preview. */
  function SectionId(t: Transaction, isPreviewId: string -> bool): string {
    (if isPreviewId(t.id) then "preview/" else "") + t.date
  }

  /** A section key ends with the date, and differs from the bare date exactly for a preview. */
  lemma SectionIdNamesDate(t: Transaction, isPreviewId: string -> bool)
    ensures var id := SectionId(t, isPreviewId);
      && |id| >= |t.date| && id[|id| - |t.date|..] == t.date
      && (id == t.date <==> !isPreviewId(t.id))
  {
    var prefix := if isPreviewId(t.id) then "preview/" else "";
    assert (prefix + t.date)[|prefix|..] == t.date;
  }

  /**
   * One step of the grouping pass: `t` opens a new section or joins the last
   * one. Either way it ends the last section, and the sections before the
   * last one are left as they were.
   */
  function AddTransaction(sections: seq<Section>, t: Transaction, isPreviewId: string -> bool): (r: seq<Section>)
    ensures |r| == |sections| + (if sections == [] || t.date != Last(sections).date then 1 else 0)
    ensures Last(r).data != [] && Last(Last(r).data) == t && Last(r).date == t.date
    ensures forall k :: 0 <= k < |r| - 1 ==> r[k] == sections[k]
  {
    if sections == [] || t.date != Last(sections).date then
      sections + [Section(SectionId(t, isPreviewId), t.date, [t])]
    else
      DropLast(sections) + [Last(sections).(data := Last(sections).data + [t])]
  }

  /** The sections the grouping pass builds from `ts`, one transaction at a time. */
  function Group(ts: seq<Transaction>, isPreviewId: string -> bool): (sections: seq<Section>)
    ensures |sections| <= |ts|
    decreases |ts|
  {
    if ts == [] then [] else AddTransaction(Group(DropLast(ts), isPreviewId), Last(ts), isPreviewId)
  }

  /** The transactions of all sections, in order. */
  function Flatten(sections: seq<Section>): seq<Transaction>
    decreases |sections|
  {
    if sections == [] then [] else Flatten(DropLast(sections)) + Last(sections).data
  }

  /** A section as the pass builds it: non-empty, one date, keyed after its first transaction. */
  ghost predicate SectionOk(s: Section, isPreviewId: string -> bool) {
    && s.data != []
    && (forall t :: t in s.data ==> t.date == s.date)
    && s.id == SectionId(s.data[0], isPreviewId)
  }

  /** Every section is well formed and neighbouring sections are on different dates. */
  ghost predicate WellFormed(sections: seq<Section>, isPreviewId: string -> bool) {
    && (forall k :: 0 <= k < |sections| ==> SectionOk(sections[k], isPreviewId))
    && (forall k :: 0 < k < |sections| ==> sections[k - 1].date != sections[k].date)
  }

  /**
   * What a grouping of `ts` by date is, independently of how it is computed:
   * well-formed sections that together are `ts`, in order.
   */
  ghost predicate IsDateGrouping(ts: seq<Transaction>, sections: seq<Section>, isPreviewId: string -> bool) {
    Flatten(sections) == ts && WellFormed(sections, isPreviewId)
  }

  /** The transactions the pass flags: the last one of every section but the final one. */
  ghost function Flagged(sections: seq<Section>): set<Transaction> {
    set k | 0 <= k < |sections| - 1 && sections[k].data != [] :: Last(sections[k].data)
  }

  /** The transactions followed in `ts` by a transaction on another date. */
  ghost function BeforeDateChange(ts: seq<Transaction>): set<Transaction> {
    set i | 0 <= i < |ts| && DateChangesAfter(ts, i) :: ts[i]
  }

  predicate DateChangesAfter(ts: seq<Transaction>, i: int)
    requires 0 <= i < |ts|
  {
    i + 1 < |ts| && ts[i].date != ts[i + 1].date
  }

  /** The number of neighbouring pairs in `ts` whose dates differ. */
  function DateChanges(ts: seq<Transaction>): nat
    decreases |ts|
  {
    if |ts| <= 1 then 0
    else DateChanges(DropLast(ts)) + (if Last(ts).date != ts[|ts| - 2].date then 1 else 0)
  }

  /** The transaction whose section `t` closes, if `t` opens a new section after a non-empty one. */
  ghost function Closing(sections: seq<Section>, t: Transaction): set<Transaction> {
    if sections != [] && t.date != Last(sections).date && Last(sections).data != [] then {Last(Last(sections).data)} else {}
  }

  /**
   * The `forEach` callback: when the date differs from the last section's (or
   * there is none), flag the last transaction of the last section and push a
   * new empty section; then push the transaction onto the last section.
   */
  method VisitTransaction(sections: seq<Section>, transaction: Transaction, isPreviewId: string -> bool)
    returns (next: seq<Section>)
    modifies Closing(sections, transaction)
    ensures next == AddTransaction(sections, transaction, isPreviewId)
    ensures forall t :: t in Closing(sections, transaction) ==> t.isLast
  {
    next := sections;
    if |next| == 0 || transaction.date != next[|next| - 1].date {
      // Mark the last transaction of the section being closed.
      var lastSection := if |next| > 0 then Some(next[|next| - 1]) else None;
      if lastSection.Some? && |lastSection.value.data| > 0 {
        var lastData := lastSection.value.data;
        lastData[|lastData| - 1].isLast := true;
      }
      next := next + [Section(SectionId(transaction, isPreviewId), transaction.date, [])];
      assert next[..|next| - 1] == sections;
      assert [] + [transaction] == [transaction];
    }
    var last := next[|next| - 1];
    next := next[..|next| - 1] + [last.(data := last.data + [transaction])];
  }

  /**
   * The `sections` memo: one pass over `txs` that opens a section whenever the
   * date differs from the previous transaction's and, when it does, sets
   * `isLast` on the last transaction of the section being closed. It does not
   * sort; the final section's last transaction is never flagged, and no flag
   * is ever cleared.
   */
  method BuildSections(txs: array<Transaction>, isPreviewId: string -> bool) returns (sections: seq<Section>)
    modifies txs[..]
    ensures sections == Group(txs[..], isPreviewId)
    ensures forall j :: 0 <= j < txs.Length ==> txs[j].isLast == (old(txs[j].isLast) || txs[j] in Flagged(sections))
  {
    sections := [];
    for i := 0 to txs.Length
      invariant sections == Group(txs[..i], isPreviewId)
      invariant forall j :: 0 <= j < txs.Length ==> txs[j].isLast == (old(txs[j].isLast) || txs[j] in Flagged(sections))
    {
      GroupStep(txs[..], i, isPreviewId);
      sections := VisitTransaction(sections, txs[i], isPreviewId);
    }
    assert txs[..txs.Length] == txs[..];
  }

  /** One step of the pass flags the last transaction of the section it closes, if it closes one. */
  lemma FlaggedStep(sections: seq<Section>, t: Transaction, isPreviewId: string -> bool)
    ensures Flagged(AddTransaction(sections, t, isPreviewId)) == Flagged(sections) + Closing(sections, t)
  {
    if sections == [] || t.date != Last(sections).date {
      FlaggedAppend(sections, Section(SectionId(t, isPreviewId), t.date, [t]));
    } else {
      FlaggedReplaceLast(sections, Last(sections).(data := Last(sections).data + [t]));
    }
  }

  /**
   * Step `i` of the pass over `ts`: one more `AddTransaction`, which flags at
   * most the transaction just before `ts[i]`.
   */
  lemma GroupStep(ts: seq<Transaction>, i: nat, isPreviewId: string -> bool)
    requires i < |ts|
    ensures var g := Group(ts[..i], isPreviewId);
      && Group(ts[..i + 1], isPreviewId) == AddTransaction(g, ts[i], isPreviewId)
      && Flagged(Group(ts[..i + 1], isPreviewId)) == Flagged(g) + Closing(g, ts[i])
      && forall t :: t in Closing(g, ts[i]) ==> 0 < i && t == ts[i - 1]
  {
    assert ts[..i + 1] == ts[..i] + [ts[i]];
    GroupAppend(ts[..i], ts[i], isPreviewId);
    FlaggedStep(Group(ts[..i], isPreviewId), ts[i], isPreviewId);
    if i > 0 {
      GroupLast(ts[..i], isPreviewId);
    }
  }

  lemma FlaggedAppend(sections: seq<Section>, s: Section)
    ensures Flagged(sections + [s]) ==
      Flagged(sections) + (if sections != [] && Last(sections).data != [] then {Last(Last(sections).data)} else {})
  {
    var extended := sections + [s];
    assert forall k :: 0 <= k < |sections| ==> extended[k] == sections[k];
  }

  lemma FlaggedReplaceLast(sections: seq<Section>, s: Section)
    requires sections != []
    ensures Flagged(DropLast(sections) + [s]) == Flagged(sections)
  {
    var replaced := DropLast(sections) + [s];
    assert forall k :: 0 <= k < |sections| - 1 ==> replaced[k] == sections[k];
  }

  /** The last section of a non-empty grouping ends with the last transaction and has its date. */
  lemma GroupLast(ts: seq<Transaction>, isPreviewId: string -> bool)
    requires ts != []
    ensures var g := Group(ts, isPreviewId);
      g != [] && Last(g).data != [] && Last(Last(g).data) == Last(ts) && Last(g).date == Last(ts).date
  {
  }

  lemma FlattenAppend(sections: seq<Section>, s: Section)
    ensures Flatten(sections + [s]) == Flatten(sections) + s.data
  {
    assert DropLast(sections + [s]) == sections;
  }

  lemma WellFormedAppend(sections: seq<Section>, s: Section, isPreviewId: string -> bool)
    ensures WellFormed(sections + [s], isPreviewId) <==>
      && WellFormed(sections, isPreviewId)
      && SectionOk(s, isPreviewId)
      && (sections != [] ==> Last(sections).date != s.date)
  {
    var extended := sections + [s];
    assert forall k :: 0 <= k < |sections| ==> extended[k] == sections[k];
    assert extended[|sections|] == s;
    if sections != [] {
      assert extended[|sections| - 1] == Last(sections);
    }
  }

  /** The pass builds a grouping by date of its input. */
  lemma {:induction false} GroupIsDateGrouping(ts: seq<Transaction>, isPreviewId: string -> bool)
    ensures IsDateGrouping(ts, Group(ts, isPreviewId), isPreviewId)
    decreases |ts|
  {
    if ts != [] {
      GroupIsDateGrouping(DropLast(ts), isPreviewId);
      AddKeepsDateGrouping(DropLast(ts), Group(DropLast(ts), isPreviewId), Last(ts), isPreviewId);
      assert ts == DropLast(ts) + [Last(ts)];
    }
  }

  /** One step of the pass extends a grouping by date of `ts` to one of `ts + [t]`. */
  lemma AddKeepsDateGrouping(ts: seq<Transaction>, sections: seq<Section>, t: Transaction, isPreviewId: string -> bool)
    requires IsDateGrouping(ts, sections, isPreviewId)
    ensures IsDateGrouping(ts + [t], AddTransaction(sections, t, isPreviewId), isPreviewId)
  {
    if sections == [] || t.date != Last(sections).date {
      var s := Section(SectionId(t, isPreviewId), t.date, [t]);
      FlattenAppend(sections, s);
      WellFormedAppend(sections, s, isPreviewId);
    } else {
      var rest, l := DropLast(sections), Last(sections);
      var l' := l.(data := l.data + [t]);
      assert sections == rest + [l];
      WellFormedAppend(rest, l, isPreviewId);
      WellFormedAppend(rest, l', isPreviewId);
      FlattenAppend(rest, l);
      FlattenAppend(rest, l');
    }
  }

  /** A grouping by date of `ts` is unique: it is the one the pass builds. */
  lemma {:induction false} DateGroupingIsGroup(ts: seq<Transaction>, sections: seq<Section>, isPreviewId: string -> bool)
    requires IsDateGrouping(ts, sections, isPreviewId)
    ensures sections == Group(ts, isPreviewId)
    decreases |ts|
  {
    if sections == [] {
      assert ts == [];
    } else if |Last(sections).data| == 1 {
      LastSectionAlone(ts, sections, isPreviewId);
      DateGroupingIsGroup(DropLast(ts), DropLast(sections), isPreviewId);
    } else {
      var l := Last(sections);
      var shorter := DropLast(sections) + [l.(data := DropLast(l.data))];
      LastSectionLonger(ts, sections, isPreviewId);
      DateGroupingIsGroup(DropLast(ts), shorter, isPreviewId);
    }
  }

  /** A grouping by date ends with the last transaction, in a section of its date. */
  lemma LastSectionEndsInput(ts: seq<Transaction>, sections: seq<Section>, isPreviewId: string -> bool)
    requires IsDateGrouping(ts, sections, isPreviewId) && sections != []
    ensures var rest, l := DropLast(sections), Last(sections);
      && WellFormed(rest, isPreviewId) && SectionOk(l, isPreviewId)
      && (rest != [] ==> Last(rest).date != l.date)
      && ts == Flatten(rest) + l.data
      && ts != [] && Last(ts) == Last(l.data) && Last(ts).date == l.date
  {
    var rest, l := DropLast(sections), Last(sections);
    assert sections == rest + [l];
    FlattenAppend(rest, l);
    WellFormedAppend(rest, l, isPreviewId);
  }

  /** When the last section holds one transaction, dropping both leaves a grouping of the rest. */
  lemma LastSectionAlone(ts: seq<Transaction>, sections: seq<Section>, isPreviewId: string -> bool)
    requires IsDateGrouping(ts, sections, isPreviewId) && sections != [] && |Last(sections).data| == 1
    ensures ts != [] && IsDateGrouping(DropLast(ts), DropLast(sections), isPreviewId)
    ensures sections == AddTransaction(DropLast(sections), Last(ts), isPreviewId)
  {
    LastSectionEndsInput(ts, sections, isPreviewId);
    var rest, l, t := DropLast(sections), Last(sections), Last(ts);
    assert l.data == [t];
    assert DropLast(ts) == Flatten(rest);
    assert l == Section(SectionId(t, isPreviewId), t.date, [t]);
    assert sections == rest + [l];
  }

  /** When the last section holds more, dropping the last transaction leaves a grouping of the rest. */
  lemma LastSectionLonger(ts: seq<Transaction>, sections: seq<Section>, isPreviewId: string -> bool)
    requires IsDateGrouping(ts, sections, isPreviewId) && sections != [] && |Last(sections).data| > 1
    ensures var l := Last(sections);
      var shorter := DropLast(sections) + [l.(data := DropLast(l.data))];
      && ts != []
      && IsDateGrouping(DropLast(ts), shorter, isPreviewId)
      && sections == AddTransaction(shorter, Last(ts), isPreviewId)
  {
    LastSectionEndsInput(ts, sections, isPreviewId);
    var rest, l, t := DropLast(sections), Last(sections), Last(ts);
    var s := l.(data := DropLast(l.data));
    var shorter := rest + [s];
    assert s.data[0] == l.data[0];
    FlattenAppend(rest, s);
    WellFormedAppend(rest, s, isPreviewId);
    assert l.data == s.data + [t];
    assert DropLast(ts) == Flatten(shorter);
    assert DropLast(shorter) == rest && Last(shorter) == s;
    assert sections == rest + [l];
  }

  /** With at least one transaction there is one section more than there are date changes. */
  lemma {:induction false} SectionCount(ts: seq<Transaction>, isPreviewId: string -> bool)
    ensures |Group(ts, isPreviewId)| == if ts == [] then 0 else 1 + DateChanges(ts)
    decreases |ts|
  {
    if ts != [] {
      var prefix := DropLast(ts);
      SectionCount(prefix, isPreviewId);
      if prefix != [] {
        GroupLast(prefix, isPreviewId);
        assert Last(prefix) == ts[|ts| - 2];
      }
    }
  }

  /** Once loaded, the list shows the "No transactions" placeholder exactly when there are no sections. */
  predicate ShowsPlaceholder(sections: seq<Section>) {
    |sections| == 0
  }

  lemma PlaceholderIffNoTransactions(ts: seq<Transaction>, isPreviewId: string -> bool)
    ensures ShowsPlaceholder(Group(ts, isPreviewId)) <==> ts == []
  {
    if ts != [] {
      GroupLast(ts, isPreviewId);
    }
  }

  lemma BeforeDateChangeAppend(ts: seq<Transaction>, t: Transaction)
    ensures BeforeDateChange(ts + [t]) ==
      BeforeDateChange(ts) + (if ts != [] && Last(ts).date != t.date then {Last(ts)} else {})
  {
    var extended := ts + [t];
    assert forall i :: 0 <= i < |ts| - 1 ==> DateChangesAfter(extended, i) == DateChangesAfter(ts, i);
    assert forall i :: 0 <= i < |ts| ==> extended[i] == ts[i];
    if ts != [] {
      assert DateChangesAfter(extended, |ts| - 1) == (Last(ts).date != t.date);
    }
  }

  /** The pass flags exactly the transactions whose successor is on another date. */
  lemma {:induction false} FlaggedAtDateChanges(ts: seq<Transaction>, isPreviewId: string -> bool)
    ensures Flagged(Group(ts, isPreviewId)) == BeforeDateChange(ts)
    decreases |ts|
  {
    if ts != [] {
      var prefix, t := DropLast(ts), Last(ts);
      var g := Group(prefix, isPreviewId);
      FlaggedAtDateChanges(prefix, isPreviewId);
      assert ts == prefix + [t];
      BeforeDateChangeAppend(prefix, t);
      if prefix == [] {
        FlaggedAppend(g, Section(SectionId(t, isPreviewId), t.date, [t]));
      } else {
        GroupLast(prefix, isPreviewId);
        if t.date != Last(g).date {
          FlaggedAppend(g, Section(SectionId(t, isPreviewId), t.date, [t]));
        } else {
          FlaggedReplaceLast(g, Last(g).(data := Last(g).data + [t]));
        }
      }
    }
  }

  /** When no transaction appears twice, the very last one is not flagged by the pass. */
  lemma FinalTransactionNotFlagged(ts: seq<Transaction>, isPreviewId: string -> bool)
    requires ts != []
    requires forall i, j :: 0 <= i < j < |ts| ==> ts[i] != ts[j]
    ensures Last(ts) !in Flagged(Group(ts, isPreviewId))
  {
    FlaggedAtDateChanges(ts, isPreviewId);
  }

  /** Grouping one more transaction is one more `AddTransaction` step. */
  lemma GroupAppend(ts: seq<Transaction>, t: Transaction, isPreviewId: string -> bool)
    ensures Group(ts + [t], isPreviewId) == AddTransaction(Group(ts, isPreviewId), t, isPreviewId)
  {
    assert DropLast(ts + [t]) == ts;
  }

  /**
   * Two transactions on one day and one on the next: two sections, and of the
   * three only the second is flagged; the third keeps its flag as it was.
   */
  lemma TwoDaysExample(t1: Transaction, t2: Transaction, t3: Transaction, isPreviewId: string -> bool)
    requires t1.date == t2.date && t2.date != t3.date
    requires t1 != t2 && t2 != t3 && t1 != t3
    ensures var sections := Group([t1, t2, t3], isPreviewId);
      && |sections| == 2
      && sections[0].data == [t1, t2] && sections[1].data == [t3]
      && Flagged(sections) == {t2}
  {
    var day1 := Section(SectionId(t1, isPreviewId), t1.date, [t1, t2]);
    var day2 := Section(SectionId(t3, isPreviewId), t3.date, [t3]);
    TwoDaysSections(t1, t2, t3, isPreviewId);
    assert [day1, day2] == [day1] + [day2];
    FlaggedAppend([day1], day2);
    assert Flagged([day1]) == {};
  }

  /** The sections of the two-day example, built one step at a time. */
  lemma TwoDaysSections(t1: Transaction, t2: Transaction, t3: Transaction, isPreviewId: string -> bool)
    requires t1.date == t2.date && t2.date != t3.date
    ensures Group([t1, t2, t3], isPreviewId)
      == [Section(SectionId(t1, isPreviewId), t1.date, [t1, t2]), Section(SectionId(t3, isPreviewId), t3.date, [t3])]
  {
    var day1 := Section(SectionId(t1, isPreviewId), t1.date, [t1, t2]);
    var day2 := Section(SectionId(t3, isPreviewId), t3.date, [t3]);
    OneDaySection(t1, t2, isPreviewId);
    GroupAppend([t1, t2], t3, isPreviewId);
    assert [t1, t2] + [t3] == [t1, t2, t3];
    assert [day1] + [day2] == [day1, day2];
  }

  /** Two transactions on one day make one section. */
  lemma OneDaySection(t1: Transaction, t2: Transaction, isPreviewId: string -> bool)
    requires t1.date == t2.date
    ensures Group([t1, t2], isPreviewId) == [Section(SectionId(t1, isPreviewId), t1.date, [t1, t2])]
  {
    var first := Section(SectionId(t1, isPreviewId), t1.date, [t1]);
    assert Group([t1], isPreviewId) == [first] by {
      GroupAppend([], t1, isPreviewId);
      assert [] + [t1] == [t1];
    }
    GroupAppend([t1], t2, isPreviewId);
    assert [t1] + [t2] == [t1, t2];
    assert DropLast([first]) == [];
  }

  // ---------------------------------------------------------------------------
  // Selection
  // ---------------------------------------------------------------------------

  /** A command sent to the selection store (`dispatchSelected`). */
  datatype SelectAction = Select(id: string) | SelectNone

  /** The optional callbacks the list passes on to the floating action bar. */
  datatype BatchCallback = Edit | Duplicate | LinkSchedule | UnlinkSchedule | Delete

  /** One observable effect of an event handler of the list or its action bar. */
  datatype Effect =
    | DispatchSelected(action: SelectAction)
    | OpenTransaction(transaction: Transaction)
    | EditCalled(field: string, ids: seq<string>)
    | BatchCalled(callback: BatchCallback, ids: seq<string>)
    | CloseEditMenu
    | CloseMoreOptionsMenu

  /**
   * `onTransactionPress`: a preview is always opened; any other transaction is
   * toggled in the selection on a long press or while something is selected,
   * and opened otherwise. Each press has exactly one effect.
   */
  function OnTransactionPress(t: Transaction, isLongPress: bool, selected: set<string>, isPreviewId: string -> bool): (e: Effect)
    ensures e.OpenTransaction? || e.DispatchSelected?
    ensures e.DispatchSelected? <==> !isPreviewId(t.id) && (isLongPress || |selected| > 0)
    ensures e.DispatchSelected? ==> e.action == Select(t.id)
    ensures e.OpenTransaction? ==> e.transaction == t
  {
    var isPreview := isPreviewId(t.id);
    if !isPreview && (isLongPress || |selected| > 0) then DispatchSelected(Select(t.id)) else OpenTransaction(t)
  }

  /**
   * How the selection store answers the two commands the list sends: `select`
   * toggles one id, `select-none` empties the selection. The store itself is
   * not part of this model; this is the behaviour the list relies on.
   */
  function ApplySelectAction(selected: set<string>, action: SelectAction): set<string> {
    match action
    case Select(id) => if id in selected then selected - {id} else selected + {id}
    case SelectNone => {}
  }

  /** A row press: the transaction and whether it was a long press. */
  datatype Press = Press(transaction: Transaction, isLongPress: bool)

  /** The selection after a series of row presses, each dispatching through the store. */
  function AfterPresses(selected: set<string>, presses: seq<Press>, isPreviewId: string -> bool): set<string>
    decreases |presses|
  {
    if presses == [] then selected
    else
      var e := OnTransactionPress(presses[0].transaction, presses[0].isLongPress, selected, isPreviewId);
      var next := if e.DispatchSelected? then ApplySelectAction(selected, e.action) else selected;
      AfterPresses(next, presses[1..], isPreviewId)
  }

  /** Row presses never put a preview transaction into the selection. */
  lemma {:induction false} PressesNeverSelectPreviews(selected: set<string>, presses: seq<Press>, isPreviewId: string -> bool)
    requires forall id :: id in selected ==> !isPreviewId(id)
    ensures forall id :: id in AfterPresses(selected, presses, isPreviewId) ==> !isPreviewId(id)
    decreases |presses|
  {
    if presses != [] {
      var e := OnTransactionPress(presses[0].transaction, presses[0].isLongPress, selected, isPreviewId);
      var next := if e.DispatchSelected? then ApplySelectAction(selected, e.action) else selected;
      PressesNeverSelectPreviews(next, presses[1..], isPreviewId);
    }
  }

  /** Short presses on an empty selection only open transactions: the selection stays empty. */
  lemma {:induction false} ShortPressesKeepBrowsing(presses: seq<Press>, isPreviewId: string -> bool)
    requires forall k :: 0 <= k < |presses| ==> !presses[k].isLongPress
    ensures AfterPresses({}, presses, isPreviewId) == {}
    decreases |presses|
  {
    if presses != [] {
      ShortPressesKeepBrowsing(presses[1..], isPreviewId);
    }
  }

  /** Once loaded, the list renders the floating action bar only while something is selected. */
  predicate ActionBarVisible(selected: set<string>) {
    |selected| > 0
  }

  /** The clear button dispatches `select-none`, and only when something is selected. */
  function OnClearPress(selected: set<string>): (effects: seq<Effect>)
    ensures |effects| <= 1
    ensures effects != [] <==> ActionBarVisible(selected)
    ensures forall e :: e in effects ==> e == DispatchSelected(SelectNone)
  {
    if |selected| > 0 then [DispatchSelected(SelectNone)] else []
  }

  /** After the clear button the action bar is gone. */
  lemma ClearHidesActionBar(selected: set<string>)
    ensures var after := if OnClearPress(selected) == [] then selected else ApplySelectAction(selected, OnClearPress(selected)[0].action);
      !ActionBarVisible(after)
  {
  }

  /** The label beside the clear button: "1 transaction selected", "3 transactions selected". */
  function CountLabel(selected: set<string>): (text: string)
    ensures text != [] && Decimal.IsDigit(text[0])
  {
    Decimal.NatToString(|selected|) + (if |selected| > 1 then " transactions selected" else " transaction selected")
  }

  /** The label's number is the size of the selection, and the noun is plural exactly above one. */
  lemma CountLabelShowsSize(selected: set<string>)
    ensures var digits := Decimal.LeadingDigits(CountLabel(selected));
      && Decimal.AllDigits(digits)
      && Decimal.Value(digits) == |selected|
      && CountLabel(selected)[|digits|..] == (if |selected| > 1 then " transactions selected" else " transaction selected")
  {
    var n := |selected|;
    var digits := Decimal.NatToString(n);
    var rest := if n > 1 then " transactions selected" else " transaction selected";
    assert CountLabel(selected) == digits + rest;
    Decimal.LeadingDigitsOfNumber(digits, rest);
    Decimal.ValueOfNatToString(n);
    assert (digits + rest)[|digits|..] == rest;
  }

  /** JavaScript truthiness of `t.schedule`: present and not the empty string. */
  predicate HasSchedule(t: Transaction) {
    t.schedule.Some? && t.schedule.value != ""
  }

  /** `transactions.filter(t => selectedTransactions.has(t.id))` */
  function SelectedOf(ts: seq<Transaction>, selected: set<string>): seq<Transaction>
    decreases |ts|
  {
    if ts == [] then []
    else (if ts[0].id in selected then [ts[0]] else []) + SelectedOf(ts[1..], selected)
  }

  /** `.every(t => t.schedule)` */
  predicate AllHaveSchedule(ts: seq<Transaction>)
    decreases |ts|
  {
    ts == [] || (HasSchedule(ts[0]) && AllHaveSchedule(ts[1..]))
  }

  /** `allTransactionsAreLinked` */
  predicate AllTransactionsAreLinked(ts: seq<Transaction>, selected: set<string>) {
    AllHaveSchedule(SelectedOf(ts, selected))
  }

  /**
   * The listed transactions are all linked exactly when every listed
   * transaction that is selected has a schedule (vacuously so when none is).
   */
  lemma {:induction false} AllLinkedIff(ts: seq<Transaction>, selected: set<string>)
    ensures AllTransactionsAreLinked(ts, selected) <==>
      forall i :: 0 <= i < |ts| && ts[i].id in selected ==> HasSchedule(ts[i])
    decreases |ts|
  {
    if ts != [] {
      AllLinkedIff(ts[1..], selected);
      var head := if ts[0].id in selected then [ts[0]] else [];
      AllHaveScheduleAppend(head, SelectedOf(ts[1..], selected));
      assert forall i :: 1 <= i < |ts| ==> ts[i] == ts[1..][i - 1];
    }
  }

  lemma {:induction false} AllHaveScheduleAppend(a: seq<Transaction>, b: seq<Transaction>)
    ensures AllHaveSchedule(a + b) <==> AllHaveSchedule(a) && AllHaveSchedule(b)
    decreases |a|
  {
    if a != [] {
      assert (a + b)[1..] == a[1..] + b;
      AllHaveScheduleAppend(a[1..], b);
    } else {
      assert a + b == b;
    }
  }

  /** An item of an action-bar menu. */
  datatype MenuItem = MenuItem(name: string, text: string)

  predicate Offers(items: seq<MenuItem>, name: string) {
    exists k :: 0 <= k < |items| && items[k].name == name
  }

  /** The more-options menu: duplicate, then link or unlink, then delete. */
  function MoreOptionsItems(allLinked: bool): (items: seq<MenuItem>)
    ensures |items| == 3
    ensures Offers(items, "duplicate") && Offers(items, "delete")
    ensures Offers(items, "unlink-schedule") <==> allLinked
    ensures Offers(items, "link-schedule") <==> !allLinked
  {
    var items := [MenuItem("duplicate", "Duplicate")]
      + (if allLinked then [MenuItem("unlink-schedule", "Unlink schedule")] else [MenuItem("link-schedule", "Link schedule")])
      + [MenuItem("delete", "Delete")];
    assert items[0].name == "duplicate" && items[2].name == "delete";
    assert allLinked ==> items[1].name == "unlink-schedule";
    assert !allLinked ==> items[1].name == "link-schedule";
    items
  }

  /** The menu offers unlinking exactly when every selected listed transaction has a schedule. */
  lemma LinkChoice(ts: seq<Transaction>, selected: set<string>)
    ensures Offers(MoreOptionsItems(AllTransactionsAreLinked(ts, selected)), "unlink-schedule") <==>
      forall i :: 0 <= i < |ts| && ts[i].id in selected ==> HasSchedule(ts[i])
    ensures Offers(MoreOptionsItems(AllTransactionsAreLinked(ts, selected)), "link-schedule") <==>
      exists i :: 0 <= i < |ts| && ts[i].id in selected && !HasSchedule(ts[i])
  {
    AllLinkedIff(ts, selected);
  }

  /** The menu item name each more-options callback answers to; `Edit` answers to the edit menu's fields instead. */
  function ItemName(callback: BatchCallback): string
    requires callback != Edit
  {
    match callback
    case Duplicate => "duplicate"
    case LinkSchedule => "link-schedule"
    case UnlinkSchedule => "unlink-schedule"
    case Delete => "delete"
  }

  /** The callback the more-options `onMenuSelect` chooses for a chosen name, if any. */
  function MoreOptionsCallback(name: string): (c: Option<BatchCallback>)
    ensures c.Some? ==> c.value != Edit && ItemName(c.value) == name
    ensures c.None? ==> name !in {"duplicate", "link-schedule", "unlink-schedule", "delete"}
  {
    if name == "duplicate" then Some(Duplicate)
    else if name == "link-schedule" then Some(LinkSchedule)
    else if name == "unlink-schedule" then Some(UnlinkSchedule)
    else if name == "delete" then Some(Delete)
    else None
  }

  /** Every item the more-options menu offers has its callback. */
  lemma EveryOfferedItemHandled(allLinked: bool)
    ensures forall k :: 0 <= k < |MoreOptionsItems(allLinked)| ==>
      MoreOptionsCallback(MoreOptionsItems(allLinked)[k].name).Some?
  {
  }

  /**
   * The more-options `onMenuSelect`: calls the callback matching the chosen
   * name, when the list was given it, with the array of selected ids; any
   * other name calls nothing; the menu closes in every case.
   */
  function OnMoreOptionsSelect(name: string, selectedIds: seq<string>, provided: set<BatchCallback>): (effects: seq<Effect>)
    ensures |effects| <= 2 && effects != [] && Last(effects) == CloseMoreOptionsMenu
    ensures |effects| == 2 <==> MoreOptionsCallback(name).Some? && MoreOptionsCallback(name).value in provided
    ensures |effects| == 2 ==> effects[0] == BatchCalled(MoreOptionsCallback(name).value, selectedIds)
  {
    var call := match MoreOptionsCallback(name)
      case Some(c) => if c in provided then [BatchCalled(c, selectedIds)] else []
      case None => [];
    call + [CloseMoreOptionsMenu]
  }

  /** The transaction fields the batch edit can change from the mobile list. */
  const EditFields: set<string> := {"account", "payee", "notes", "category", "amount", "cleared"}

  /** The fields the edit menu offers, each once; `date` is left out. */
  function EditMenuItems(): (items: seq<MenuItem>)
    ensures |items| == 6 && !Offers(items, "date")
    ensures forall k :: 0 <= k < |items| ==> items[k].name in EditFields
    ensures forall f :: f in EditFields ==> Offers(items, f)
  {
    var items := [ MenuItem("account", "Account"), MenuItem("payee", "Payee"), MenuItem("notes", "Notes")
                 , MenuItem("category", "Category"), MenuItem("amount", "Amount"), MenuItem("cleared", "Cleared") ];
    assert items[0].name == "account" && items[1].name == "payee" && items[2].name == "notes";
    assert items[3].name == "category" && items[4].name == "amount" && items[5].name == "cleared";
    items
  }

  /** The edit `onMenuSelect`: `onEdit(field, ids)` when given, then the menu closes. */
  function OnEditSelect(field: string, selectedIds: seq<string>, provided: set<BatchCallback>): (effects: seq<Effect>)
    ensures effects != [] && Last(effects) == CloseEditMenu
    ensures |effects| == (if Edit in provided then 2 else 1)
    ensures Edit in provided ==> effects[0] == EditCalled(field, selectedIds)
  {
    (if Edit in provided then [EditCalled(field, selectedIds)] else []) + [CloseEditMenu]
  }

  /** Every field the edit menu offers reaches `onEdit` with that field and all the selected ids. */
  lemma EditMenuPassesField(k: nat, selectedIds: seq<string>)
    requires k < |EditMenuItems()|
    ensures var effects := OnEditSelect(EditMenuItems()[k].name, selectedIds, {Edit});
      effects[0] == EditCalled(EditMenuItems()[k].name, selectedIds) && EditMenuItems()[k].name != "date"
  {
  }
}
