/**
 * The quick-log page: the form validator, appending an entry with the next
 * id, and the token gate that sends a visitor without a token to sign in.
 */
module Tracker {

  import opened Options
  import Text

  const AuthRedirect := "/auth?redirect=/tracker"

  /** The form's fields; the weight is in kilograms. */
  datatype Form = Form(date: string, exercise: string, sets: real, reps: real, weight: real)

  datatype LogEntry = LogEntry(id: int, date: string, exercise: string, sets: real, reps: real, weight: real)

  /** `\d{4}-\d{2}-\d{2}` matches at index i. */
  predicate DateShapeAt(d: string, i: int) {
    && 0 <= i && i + 10 <= |d|
    && Text.IsAsciiDigit(d[i]) && Text.IsAsciiDigit(d[i + 1])
    && Text.IsAsciiDigit(d[i + 2]) && Text.IsAsciiDigit(d[i + 3])
    && d[i + 4] == '-'
    && Text.IsAsciiDigit(d[i + 5]) && Text.IsAsciiDigit(d[i + 6])
    && d[i + 7] == '-'
    && Text.IsAsciiDigit(d[i + 8]) && Text.IsAsciiDigit(d[i + 9])
  }

  /** `/\d{4}-\d{2}-\d{2}/.test(date)`: unanchored, so anywhere in the string. */
  predicate HasDateShape(d: string)
    ensures HasDateShape(d) ==> |d| >= 10
    ensures |d| == 10 ==> (HasDateShape(d) <==> DateShapeAt(d, 0))
    ensures forall i | 0 <= i < |d| :: DateShapeAt(d, i) ==> HasDateShape(d)
  {
    exists i | 0 <= i < |d| :: DateShapeAt(d, i)
  }

  /** `canSubmit`. */
  predicate CanSubmit(f: Form)
    ensures CanSubmit(f) ==> |f.date| >= 10 && f.exercise != []
    ensures (forall k | 0 <= k < |f.exercise| :: Text.IsJsSpace(f.exercise[k])) ==> !CanSubmit(f)
    ensures f.sets <= 0.0 || f.reps <= 0.0 || f.weight <= 0.0 ==> !CanSubmit(f)
  {
    && Text.Trim(f.exercise) != []
    && f.sets > 0.0 && f.reps > 0.0 && f.weight > 0.0
    && HasDateShape(f.date)
  }

  /** Scans the date for the pattern, as the regex engine does. */
  method FindDateShape(d: string) returns (found: bool, at: int)
    ensures found <==> HasDateShape(d)
    ensures found ==> DateShapeAt(d, at) && forall j :: 0 <= j < at ==> !DateShapeAt(d, j)
  {
    var i := 0;
    while i + 10 <= |d|
      invariant 0 <= i <= |d|
      invariant forall j :: 0 <= j < i ==> !DateShapeAt(d, j)
    {
      if DateShapeAt(d, i) {
        return true, i;
      }
      i := i + 1;
    }
    return false, -1;
  }

  /** Evaluates `canSubmit` the way the page does, scanning the date with
      the regex engine. */
  method CheckForm(f: Form) returns (ok: bool)
    ensures ok <==> CanSubmit(f)
  {
    if Text.Trim(f.exercise) == [] || !(f.sets > 0.0 && f.reps > 0.0 && f.weight > 0.0) {
      return false;
    }
    var found, _ := FindDateShape(f.date);
    ok := found;
  }

  /** `prev.length ? prev[prev.length - 1].id + 1 : 1`. */
  function NextId(entries: seq<LogEntry>): int {
    if |entries| == 0 then 1 else entries[|entries| - 1].id + 1
  }

  function EntryOf(id: int, f: Form): LogEntry {
    LogEntry(id, f.date, f.exercise, f.sets, f.reps, f.weight)
  }

  /** `addEntry`: append the form as a new entry when it can be submitted. */
  function AddEntry(entries: seq<LogEntry>, f: Form): (r: seq<LogEntry>)
    ensures !CanSubmit(f) ==> r == entries
    ensures CanSubmit(f) ==>
              && |r| == |entries| + 1
              && r[..|entries|] == entries
              && r[|entries|].id == (if |entries| == 0 then 1 else entries[|entries| - 1].id + 1)
              && r[|entries|].date == f.date && r[|entries|].exercise == f.exercise
              && r[|entries|].sets == f.sets && r[|entries|].reps == f.reps
              && r[|entries|].weight == f.weight
  {
    if !CanSubmit(f) then entries else entries + [EntryOf(NextId(entries), f)]
  }

  /** Ids are 1, 2, ..., |entries| in order. */
  predicate CountedIds(entries: seq<LogEntry>) {
    forall i :: 0 <= i < |entries| ==> entries[i].id == i + 1
  }

  /** Ids strictly increase along the list, so no two entries share one. */
  predicate IncreasingIds(entries: seq<LogEntry>) {
    forall i, j :: 0 <= i < j < |entries| ==> entries[i].id < entries[j].id
  }

  /** Adding keeps the ids counted 1, 2, 3, ... */
  lemma AddEntryKeepsCount(entries: seq<LogEntry>, f: Form)
    requires CountedIds(entries)
    ensures CountedIds(AddEntry(entries, f))
  {
  }

  /** The entries after submitting the forms in order, starting from `entries`. */
  function AddAll(entries: seq<LogEntry>, forms: seq<Form>): seq<LogEntry>
    decreases |forms|
  {
    if |forms| == 0 then entries else AddAll(AddEntry(entries, forms[0]), forms[1..])
  }

  /** How many of the forms can be submitted. */
  function Accepted(forms: seq<Form>): nat
    decreases |forms|
  {
    if |forms| == 0 then 0 else (if CanSubmit(forms[0]) then 1 else 0) + Accepted(forms[1..])
  }

  /** From counted ids, any run of submissions keeps them counted and adds
      one entry per accepted form. */
  lemma {:induction false} AddAllCounted(entries: seq<LogEntry>, forms: seq<Form>)
    requires CountedIds(entries)
    ensures CountedIds(AddAll(entries, forms))
    ensures |AddAll(entries, forms)| == |entries| + Accepted(forms)
    ensures AddAll(entries, forms)[..|entries|] == entries
    decreases |forms|
  {
    if |forms| > 0 {
      AddEntryKeepsCount(entries, forms[0]);
      var next := AddEntry(entries, forms[0]);
      AddAllCounted(next, forms[1..]);
      var rest := AddAll(next, forms[1..]);
      assert next[..|entries|] == entries;
      assert rest[..|entries|] == rest[..|next|][..|entries|];
    }
  }

  /** Starting from an empty list the ids are 1, 2, 3, ..., strictly
      increasing and pairwise distinct. */
  lemma {:induction false} IdsFromEmpty(forms: seq<Form>)
    ensures CountedIds(AddAll([], forms))
    ensures IncreasingIds(AddAll([], forms))
    ensures |AddAll([], forms)| == Accepted(forms)
  {
    AddAllCounted([], forms);
  }

  /** The token gate: `if (!token) router.replace(...)`. An empty token is
      falsy and redirects too. */
  function Gate(token: Option<string>): (redirect: Option<string>)
    ensures redirect.Some? <==> (token.None? || token.value == [])
    ensures redirect.Some? ==> redirect.value == AuthRedirect
  {
    if token.None? || token.value == [] then Some(AuthRedirect) else None
  }
}
