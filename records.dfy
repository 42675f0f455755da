/** One spreadsheet row as a value (`Data` in grade_data.py), the split of its name
    column, the per-item range checks and the sums over items that count toward a grade. */
module Records {
  import opened Rounding

  datatype Option<T> = None | Some(value: T)

  /** The number part of a work name: `Unnumbered` is the integer -1 the script stores
      when the name has no space; otherwise the script keeps the text after the last space. */
  datatype Number = Unnumbered | Numbered(text: string)

  /** One piece of graded work. Status: -1 N/A, 0 incomplete, 1 complete,
      1.5 mark returned and to be reviewed, 2 finished. Grade nominally 0..100
      (-1 when there is none yet), weight nominally 0..1. */
  datatype Data = Data(course: string, kind: string, number: Number, dueDate: string,
                       status: real, grade: real, weight: real)

  /** The status from which an item counts toward the course totals. */
  const Counted: real := 1.5

  predicate Qualifies(d: Data) { d.status >= Counted }

  /** How much an item pulled the course up (positive) or down (negative) against `current`. */
  function ItemEffect(d: Data, current: real): real
  {
    d.grade * d.weight - d.weight * current
  }

  /** Index of the last space of `s`, if any. */
  function LastSpace(s: string): (r: Option<nat>)
    ensures r.None? <==> ' ' !in s
    ensures r.Some? ==> r.value < |s| && s[r.value] == ' ' && ' ' !in s[r.value + 1..]
  {
    if s == [] then None
    else if s[|s| - 1] == ' ' then Some(|s| - 1)
    else
      var r := LastSpace(s[..|s| - 1]);
      assert r.Some? ==> s[r.value + 1..] == s[..|s| - 1][r.value + 1..] + [s[|s| - 1]];
      r
  }

  /** `name.rsplit(' ', 1)`, with -1 appended when there is no space: (type, number). */
  function SplitName(name: string): (r: (string, Number))
    ensures r.1.Unnumbered? <==> ' ' !in name
    ensures r.1.Unnumbered? ==> r.0 == name
    ensures r.1.Numbered? ==> r.0 + " " + r.1.text == name && ' ' !in r.1.text
  {
    match LastSpace(name)
    case None => (name, Unnumbered)
    case Some(i) =>
      assert name[..i] + " " + name[i + 1..] == name by {
        assert name == name[..i] + [name[i]] + name[i + 1..];
      }
      (name[..i], Numbered(name[i + 1..]))
  }

  /** The name column put back together from its two parts. */
  function JoinName(kind: string, number: Number): string
  {
    match number
    case Unnumbered => kind
    case Numbered(t) => kind + " " + t
  }

  /** Splitting loses nothing: the two parts give back the name. */
  lemma SplitNameRoundTrip(name: string)
    ensures JoinName(SplitName(name).0, SplitName(name).1) == name
  {
  }

  // ----- range checks of one item (Data.find_errors) -----

  datatype Warning =
    | StatusError(item: Data)
    | GradeError(item: Data)
    | WeightError(item: Data)
    | CourseWeightError(course: string, total: real)

  predicate StatusOutOfRange(d: Data) { d.status < 0.0 || d.status > 2.0 }
  predicate GradeOutOfRange(d: Data) { (d.grade < 0.0 || d.grade > 100.0) && d.grade != -1.0 }
  predicate WeightOutOfRange(d: Data) { d.weight < 0.0 || d.weight > 1.0 }

  /** The warnings one item raises, in the order the script reports them;
      an item with status -1 is not checked. */
  function ItemWarnings(d: Data): (r: seq<Warning>)
    ensures d.status == -1.0 ==> r == []
    ensures forall w :: w in r ==> !w.CourseWeightError? && w.item == d
    ensures StatusError(d) in r <==> d.status != -1.0 && StatusOutOfRange(d)
    ensures GradeError(d) in r <==> d.status != -1.0 && GradeOutOfRange(d)
    ensures WeightError(d) in r <==> d.status != -1.0 && WeightOutOfRange(d)
  {
    if d.status == -1.0 then []
    else
      (if StatusOutOfRange(d) then [StatusError(d)] else [])
      + (if GradeOutOfRange(d) then [GradeError(d)] else [])
      + (if WeightOutOfRange(d) then [WeightError(d)] else [])
  }

  /** The five statuses the script defines are never reported as status errors. */
  lemma DefinedStatusesAccepted(d: Data)
    requires d.status in {-1.0, 0.0, 1.0, 1.5, 2.0}
    ensures StatusError(d) !in ItemWarnings(d)
  {
  }

  /** What Data.find_errors does as written: the weight message formats `round(self, 2)`
      of the Data object itself, which raises TypeError, so the check stops there after
      having reported the status and grade warnings. */
  datatype Outcome = Completed(reported: seq<Warning>) | Aborted(reported: seq<Warning>)

  function ItemWarningsAsWritten(d: Data): (r: Outcome)
    ensures r.Aborted? <==> d.status != -1.0 && WeightOutOfRange(d)
    ensures WeightError(d) !in r.reported
    ensures forall w :: w in r.reported <==> w in ItemWarnings(d) && !w.WeightError?
    ensures r.reported + (if r.Aborted? then [WeightError(d)] else []) == ItemWarnings(d)
  {
    if d.status == -1.0 then Completed([])
    else
      var shown := (if StatusOutOfRange(d) then [StatusError(d)] else [])
                   + (if GradeOutOfRange(d) then [GradeError(d)] else []);
      if WeightOutOfRange(d) then Aborted(shown) else Completed(shown)
  }

  /** Where the script does not stop, it reports exactly the corrected warnings. */
  lemma AsWrittenAgreesInRange(d: Data)
    requires !(d.status != -1.0 && WeightOutOfRange(d))
    ensures ItemWarningsAsWritten(d) == Completed(ItemWarnings(d))
  {
  }

  /** A weight of 1.5 on a finished item stops the script instead of producing a weight warning. */
  lemma WeightOverOneAborts()
    ensures var d := Data("MATH 100", "Quiz", Numbered("1"), "Jan 1", 2.0, 80.0, 1.5);
            ItemWarningsAsWritten(d) == Aborted([]) && ItemWarnings(d) == [WeightError(d)]
  {
  }

  // ----- totals over items -----

  /** The two running totals: `Achieved` sums grade*weight, `Possible` sums weight. */
  datatype Column = Achieved | Possible

  function Contribution(d: Data, c: Column): real
  {
    match c
    case Achieved => d.grade * d.weight
    case Possible => d.weight
  }

  /** Sum of column `c` over the items that qualify (status >= 1.5). */
  function QualSum(ds: seq<Data>, c: Column): real
  {
    if ds == [] then 0.0
    else QualSum(ds[..|ds| - 1], c) + (if Qualifies(ds[|ds| - 1]) then Contribution(ds[|ds| - 1], c) else 0.0)
  }

  lemma {:induction false} QualSumConcat(xs: seq<Data>, ys: seq<Data>, c: Column)
    ensures QualSum(xs + ys, c) == QualSum(xs, c) + QualSum(ys, c)
  {
    if ys == [] {
      assert xs + ys == xs;
    } else {
      var ys' := ys[..|ys| - 1];
      assert (xs + ys)[..|xs + ys| - 1] == xs + ys';
      QualSumConcat(xs, ys', c);
    }
  }

  /** With qualifying weights non-negative and grades in 0..100, the achieved total
      lies between 0 and 100 times the possible total. */
  lemma {:induction false} QualSumBounds(ds: seq<Data>)
    requires forall i :: 0 <= i < |ds| && Qualifies(ds[i]) ==> 0.0 <= ds[i].grade <= 100.0 && ds[i].weight >= 0.0
    ensures 0.0 <= QualSum(ds, Possible)
    ensures 0.0 <= QualSum(ds, Achieved) <= 100.0 * QualSum(ds, Possible)
  {
    if ds != [] {
      var init, last := ds[..|ds| - 1], ds[|ds| - 1];
      assert forall i :: 0 <= i < |init| ==> init[i] == ds[i];
      QualSumBounds(init);
      var a, p := QualSum(init, Achieved), QualSum(init, Possible);
      if Qualifies(last) {
        var g, w := last.grade, last.weight;
        MulNonNegative(g, w);
        MulNonNegative(100.0 - g, w);
        assert QualSum(ds, Achieved) == a + g * w;
        assert QualSum(ds, Possible) == p + w;
      } else {
        assert QualSum(ds, Achieved) == a && QualSum(ds, Possible) == p;
      }
    }
  }

  lemma MulNonNegative(a: real, b: real)
    requires 0.0 <= a && 0.0 <= b
    ensures 0.0 <= a * b
  {
  }

  /** Sum of the weights of the items whose status is not -1 (the total Class.find_errors checks). */
  function ActiveWeight(ds: seq<Data>): real
  {
    if ds == [] then 0.0
    else ActiveWeight(ds[..|ds| - 1]) + (if ds[|ds| - 1].status != -1.0 then ds[|ds| - 1].weight else 0.0)
  }
}
