/** The prescription-history card of the home page (loadPrescriptionHistory).

    The stored history is passed in as a parameter, already parsed. The card
    shows the first five records in stored order, each with its date and its
    summary cut to 100 characters (with "..." when the summary was longer), and
    below them a note with the number of records not shown. */
module Prescriptions {

  /** One stored prescription record. */
  datatype Prescription = Prescription(date: string, summary: string)

  /** One displayed record: its date and the (possibly shortened) summary. */
  datatype ShownRecord = ShownRecord(date: string, content: string)

  datatype Option<T> = None | Some(value: T)

  /** The card: the "no records" message, or the shown records and, when
      some records are not shown, the note "n more records". */
  datatype HistoryView = NoRecordsMessage | Records(shown: seq<ShownRecord>, moreNote: Option<nat>)

  /** How many records the card shows. */
  const MaxShown: nat := 5

  /** How many characters of a summary the card shows. */
  const SummaryLimit: nat := 100

  /** The marker appended to a shortened summary. */
  const Ellipsis: string := "..."

  function Min(a: nat, b: nat): nat
  {
    if a <= b then a else b
  }

  /** `summary.substring(0, 100)`, followed by "..." when the summary is
      longer than 100 characters. */
  function Excerpt(summary: string): (r: string)
    ensures |summary| <= SummaryLimit ==> r == summary
    ensures |summary| > SummaryLimit ==>
      |r| == SummaryLimit + |Ellipsis|
      && r[..SummaryLimit] == summary[..SummaryLimit]
      && r[SummaryLimit..] == Ellipsis
  {
    summary[..Min(SummaryLimit, |summary|)] + (if |summary| > SummaryLimit then Ellipsis else "")
  }

  /** loadPrescriptionHistory: an empty history shows the "no records"
      message; otherwise the first five records are shown in stored order,
      each summary shortened by Excerpt, and a note gives the number of the
      remaining records exactly when there are more than five. */
  function LoadPrescriptionHistory(history: seq<Prescription>): (v: HistoryView)
    ensures v.NoRecordsMessage? <==> history == []
    ensures v.Records? ==>
      |v.shown| == Min(MaxShown, |history|)
      && (forall j :: 0 <= j < |v.shown| ==>
            v.shown[j] == ShownRecord(history[j].date, Excerpt(history[j].summary)))
      && (v.moreNote.Some? <==> |history| > MaxShown)
      && (v.moreNote.Some? ==> v.moreNote.value == |history| - MaxShown)
  {
    if history == [] then NoRecordsMessage
    else
      var recent := history[..Min(MaxShown, |history|)];
      var shown := seq(|recent|, j requires 0 <= j < |recent| =>
                       ShownRecord(recent[j].date, Excerpt(recent[j].summary)));
      var more := if |history| > MaxShown then Some(|history| - MaxShown) else None;
      Records(shown, more)
  }

  /** The number of records not shown: the value of the note, or 0 without one. */
  function Hidden(v: HistoryView): nat
  {
    if v.Records? && v.moreNote.Some? then v.moreNote.value else 0
  }

  /** Every record is accounted for: the shown records and the note's count
      add up to the length of the history. */
  lemma ShownPlusHiddenIsAll(history: seq<Prescription>)
    ensures var v := LoadPrescriptionHistory(history);
      (if v.Records? then |v.shown| else 0) + Hidden(v) == |history|
  {
  }
}
