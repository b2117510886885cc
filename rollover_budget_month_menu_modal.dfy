/**
 * The mobile budget-month modal: the month's notes, an "Actions" toggle, and
 * the budget-month menu whose entries send an action keyword to
 * `onBudgetAction(month, keyword)`, close the modal and, for every action but
 * "check templates", raise one undo notification.
 *
 * `monthUtils.format(month, ...)` is not part of this model: the formatted
 * month is the opaque string `displayMonth`. The notification itself is a
 * logged event carrying its message.
 */
module RolloverBudgetMonthMenuModal {
  import opened Wrappers
  import Decimal

  /** The entries of the budget-month menu, one per callback the modal passes to it. */
  datatype MonthAction =
    | CopyLastMonthBudget
    | SetBudgetsToZero
    | SetMonthsAverage(numberOfMonths: nat)
    | CheckTemplates
    | ApplyBudgetTemplates
    | OverwriteWithBudgetTemplates
    | EndOfMonthCleanup

  /** One observable effect of the modal's handlers, in the order they happen. */
  datatype ModalEffect =
    | BudgetAction(month: string, keyword: string)
    | CloseModal
    | UndoNotification(message: string)
    | EditNotes(month: string)

  /**
   * The keyword each menu entry sends to `onBudgetAction`. Only the average
   * entry's keyword has the `set-<n>-avg` shape, with `n` written in decimal.
   */
  function ActionKeyword(a: MonthAction): (k: string)
    ensures |k| > 4 && k[|k| - 4..] == "-avg" <==> a.SetMonthsAverage?
    ensures a.SetMonthsAverage? ==> |k| > 8 && k[..4] == "set-" && k[4..|k| - 4] == Decimal.NatToString(a.numberOfMonths)
  {
    match a
    case CopyLastMonthBudget => "copy-last"
    case SetBudgetsToZero => "set-zero"
    case SetMonthsAverage(n) => "set-" + Decimal.NatToString(n) + "-avg"
    case CheckTemplates => "check-templates"
    case ApplyBudgetTemplates => "apply-goal-template"
    case OverwriteWithBudgetTemplates => "overwrite-goal-template"
    case EndOfMonthCleanup => "cleanup-goal-template"
  }

  /** Different menu entries send different keywords, so the keyword identifies the entry. */
  lemma ActionKeywordInjective(a: MonthAction, b: MonthAction)
    ensures ActionKeyword(a) == ActionKeyword(b) ==> a == b
  {
    if ActionKeyword(a) == ActionKeyword(b) {
      if a.SetMonthsAverage? && b.SetMonthsAverage? {
        Decimal.NatToStringInjective(a.numberOfMonths, b.numberOfMonths);
      }
    }
  }

  /** How the average is named in its notification: "yearly" for twelve months. */
  function AverageName(numberOfMonths: nat): string {
    if numberOfMonths == 12 then "yearly" else Decimal.NatToString(numberOfMonths) + " month"
  }

  /** The undo notification an entry raises, if any: none for "check templates". */
  function UndoMessage(a: MonthAction, displayMonth: string): (m: Option<string>)
    ensures m.None? <==> a.CheckTemplates?
    ensures m.Some? ==> displayMonth <= m.value
  {
    match a
    case CopyLastMonthBudget =>
      Some(displayMonth + " budgets have all been set to last month\U{2019}s budgeted amounts.")
    case SetBudgetsToZero =>
      Some(displayMonth + " budgets have all been set to zero.")
    case SetMonthsAverage(n) =>
      Some(displayMonth + " budgets have all been set to " + AverageName(n) + " average.")
    case CheckTemplates =>
      None
    case ApplyBudgetTemplates =>
      Some(displayMonth + " budget templates have been applied.")
    case OverwriteWithBudgetTemplates =>
      Some(displayMonth + " budget templates have been overwritten.")
    case EndOfMonthCleanup =>
      Some(displayMonth + " end-of-month cleanup templates have been applied.")
  }

  /** The average notification says "yearly" exactly when the average is over twelve months. */
  lemma AverageMessageSaysYearly(numberOfMonths: nat, displayMonth: string)
    ensures (UndoMessage(SetMonthsAverage(numberOfMonths), displayMonth)
             == Some(displayMonth + " budgets have all been set to yearly average."))
            <==> numberOfMonths == 12
    ensures numberOfMonths != 12 ==>
      UndoMessage(SetMonthsAverage(numberOfMonths), displayMonth)
      == Some(displayMonth + " budgets have all been set to " + Decimal.NatToString(numberOfMonths) + " month average.")
  {
    var prefix := displayMonth + " budgets have all been set to ";
    var name := AverageName(numberOfMonths);
    assert UndoMessage(SetMonthsAverage(numberOfMonths), displayMonth).value == prefix + name + " average.";
    if numberOfMonths != 12 {
      assert prefix + (Decimal.NatToString(numberOfMonths) + " month") + " average."
        == prefix + Decimal.NatToString(numberOfMonths) + " month average.";
    }
    if numberOfMonths == 12 {
      assert prefix + name + " average." == displayMonth + " budgets have all been set to yearly average.";
    } else {
      assert |name| > |"yearly"|;
      assert |prefix + name + " average."| != |displayMonth + " budgets have all been set to yearly average."|;
    }
  }

  /**
   * What an entry's callback does, in order: `onBudgetAction(month, keyword)`,
   * then `onClose()`, then at most one undo notification.
   */
  function ActionEffects(month: string, displayMonth: string, a: MonthAction): (effects: seq<ModalEffect>)
    ensures |effects| == (if a.CheckTemplates? then 2 else 3)
    ensures effects[0] == BudgetAction(month, ActionKeyword(a)) && effects[1] == CloseModal
    ensures forall k :: 2 <= k < |effects| ==> effects[k].UndoNotification? && displayMonth <= effects[k].message
    ensures |effects| == 3 ==> effects[2] == UndoNotification(UndoMessage(a, displayMonth).value)
  {
    [BudgetAction(month, ActionKeyword(a)), CloseModal]
      + match UndoMessage(a, displayMonth)
        case Some(message) => [UndoNotification(message)]
        case None => []
  }

  /** The notes shown: the stored notes, or "No notes" when there are none or they are empty. */
  function NotesShown(notes: Option<string>): (shown: string)
    ensures shown != []
  {
    if notes.Some? && |notes.value| > 0 then notes.value else "No notes"
  }

  /** Whether the notes are drawn in the subdued placeholder style. */
  predicate NotesSubdued(notes: Option<string>) {
    notes.None? || |notes.value| == 0
  }

  /** The placeholder text and the placeholder style go together; real notes are shown unchanged. */
  lemma NotesPlaceholderAgreesWithStyle(notes: Option<string>)
    ensures NotesSubdued(notes) ==> NotesShown(notes) == "No notes"
    ensures !NotesSubdued(notes) ==> notes.Some? && NotesShown(notes) == notes.value && NotesShown(notes) != []
  {
  }

  /** Which parts of the modal are displayed. */
  datatype ModalView = ModalView(notesPane: bool, editNotesRow: bool, actionMenu: bool, chevronUp: bool)

  /** The notes pane and the "Edit notes" row are hidden, and the action menu rendered, iff `showMore`. */
  function ViewFor(showMore: bool): (v: ModalView)
    ensures v.notesPane != v.actionMenu && v.editNotesRow == v.notesPane
    ensures v.actionMenu == showMore && v.chevronUp == !showMore
  {
    ModalView(!showMore, !showMore, showMore, !showMore)
  }

  /** The modal, with its `showMore` state and the log of what its handlers have done. */
  class MonthMenuModal {
    const month: string
    /** `monthUtils.format(month, 'MMMM ‘yy')`, taken as given. */
    const displayMonth: string
    /** Whether the optional `onEditNotes` callback was given. */
    const hasEditNotesHandler: bool
    var showMore: bool
    var effects: seq<ModalEffect>

    constructor (month: string, displayMonth: string, hasEditNotesHandler: bool)
      ensures this.month == month && this.displayMonth == displayMonth
      ensures this.hasEditNotesHandler == hasEditNotesHandler
      ensures !showMore && effects == []
    {
      this.month := month;
      this.displayMonth := displayMonth;
      this.hasEditNotesHandler := hasEditNotesHandler;
      showMore := false;
      effects := [];
    }

    function View(): ModalView
      reads this
    {
      ViewFor(showMore)
    }

    /** The "Actions" button flips `showMore`; two presses restore it. */
    method OnShowMore()
      modifies this`showMore
      ensures showMore == !old(showMore)
      ensures View().actionMenu == !old(View().actionMenu)
    {
      showMore := !showMore;
    }

    /** "Edit notes" calls `onEditNotes(month)` when it was given. */
    method OnEditNotes()
      modifies this`effects
      ensures effects == old(effects) + (if hasEditNotesHandler then [EditNotes(month)] else [])
    {
      if hasEditNotesHandler {
        effects := effects + [EditNotes(month)];
      }
    }

    /** A budget-month menu callback. */
    method OnMenuAction(a: MonthAction)
      modifies this`effects
      ensures effects == old(effects) + ActionEffects(month, displayMonth, a)
      ensures |effects| == |old(effects)| + (if a.CheckTemplates? then 2 else 3)
    {
      effects := effects + [BudgetAction(month, ActionKeyword(a))];
      effects := effects + [CloseModal];
      var message := UndoMessage(a, displayMonth);
      if message.Some? {
        effects := effects + [UndoNotification(message.value)];
      }
    }
  }
}
