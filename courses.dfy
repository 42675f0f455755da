/** A course (`Class` in grade_data.py): its running totals, its items, its work groups,
    the statistics the script reports about it, the best and worst item and the range checks. */
module Courses {
  import opened Rounding
  import opened Records
  import opened Groups
  import opened RankedList

  /** The final percentage the student aims for. */
  const WantedGrade: real := 90.0

  // ----- range checks of a whole course (Class.find_errors) -----

  /** The item warnings of every item in input order. */
  function AllItemWarnings(ds: seq<Data>): seq<Warning>
  {
    if ds == [] then []
    else AllItemWarnings(ds[..|ds| - 1]) + ItemWarnings(ds[|ds| - 1])
  }

  /** Everything the course check reports: the item warnings, then a course warning
      carrying the weight total when that total does not round to 1. */
  function CourseWarnings(name: string, ds: seq<Data>): seq<Warning>
  {
    AllItemWarnings(ds)
    + (if Round2(ActiveWeight(ds)) != 1.0 then [CourseWeightError(name, ActiveWeight(ds))] else [])
  }

  lemma {:induction false} AllItemWarningsIff(ds: seq<Data>, d: Data)
    ensures forall w :: w in AllItemWarnings(ds) ==> !w.CourseWeightError?
    ensures StatusError(d) in AllItemWarnings(ds) <==> d in ds && d.status != -1.0 && StatusOutOfRange(d)
    ensures GradeError(d) in AllItemWarnings(ds) <==> d in ds && d.status != -1.0 && GradeOutOfRange(d)
    ensures WeightError(d) in AllItemWarnings(ds) <==> d in ds && d.status != -1.0 && WeightOutOfRange(d)
  {
    if ds != [] {
      var init, last := ds[..|ds| - 1], ds[|ds| - 1];
      assert ds == init + [last];
      AllItemWarningsIff(init, d);
      var before, added := AllItemWarnings(init), ItemWarnings(last);
      assert AllItemWarnings(ds) == before + added;
      assert d in ds <==> d in init || d == last;
    }
  }

  /** Every flagged condition is reported and nothing else: an item warning for exactly the
      items with status not -1 that are out of range, and a course warning exactly when the
      weights of those items do not add up to 1 within half a hundredth. */
  lemma CourseWarningsIff(name: string, ds: seq<Data>, d: Data)
    ensures StatusError(d) in CourseWarnings(name, ds) <==> d in ds && d.status != -1.0 && StatusOutOfRange(d)
    ensures GradeError(d) in CourseWarnings(name, ds) <==> d in ds && d.status != -1.0 && GradeOutOfRange(d)
    ensures WeightError(d) in CourseWarnings(name, ds) <==> d in ds && d.status != -1.0 && WeightOutOfRange(d)
    ensures CourseWeightError(name, ActiveWeight(ds)) in CourseWarnings(name, ds)
            <==> !(0.995 <= ActiveWeight(ds) <= 1.005)
    ensures forall w :: w in CourseWarnings(name, ds) && w.CourseWeightError? ==>
              w == CourseWeightError(name, ActiveWeight(ds))
  {
    AllItemWarningsIff(ds, d);
    Round2OneIff(ActiveWeight(ds));
  }

  /** What the driver shows for a course: the final grade of a finished course, otherwise the
      current grade, the average needed on the rest, and the grades if the rest scores 0 or 100. */
  datatype Summary =
    | Finished(finalGrade: real)
    | InProgress(current: real, needed: real, ifNothing: real, ifAce: real)

  /** Scoring the needed average on the remaining weight lands within rounding of the
      wanted grade minus a half (the script aims at 89.5, which rounds to 90). */
  lemma NeededReachesTarget(grade: real, maxGrade: real)
    requires maxGrade != 1.0
    ensures var r := Round2((WantedGrade - 0.5 - grade) / (1.0 - maxGrade));
            Abs(grade + r * (1.0 - maxGrade) - (WantedGrade - 0.5)) <= 0.005 * Abs(1.0 - maxGrade)
  {
    var rest := 1.0 - maxGrade;
    var x := (WantedGrade - 0.5 - grade) / rest;
    var r := Round2(x);
    assert Abs(r - x) <= 0.005 by {
      Round2Near(x);
    }
    var miss := grade + r * rest - (WantedGrade - 0.5);
    assert miss == (r - x) * rest by {
      assert x * rest == WantedGrade - 0.5 - grade;
    }
    AbsMulBound(r - x, rest, 0.005, miss);
  }

  /** What a group's results did to the course grade: the points it earned minus the points
      the grade `current` would have earned on its weight. */
  function GroupEffect(grade: real, maxGrade: real, current: real): real
  {
    grade - maxGrade * current
  }

  /** Group `w` has been summed, and, when it has marked weight, its effect set: its earned
      points minus what the grade `current` would have earned on its weight, to the hundredth. */
  ghost predicate Summed(w: Work, current: real)
    reads w`grade, w`maxGrade, w`effect, w`workList
  {
    && w.grade == QualSum(w.workList, Achieved)
    && w.maxGrade == QualSum(w.workList, Possible)
    && (w.maxGrade != 0.0 ==> w.effect == Round2(GroupEffect(w.grade, w.maxGrade, current)))
  }

  /** Groups of equal effect in the ranking `rs` (with effects `es`) come in the order of `ws`,
      the dictionary order. */
  ghost predicate TiesInOrder(rs: seq<Work>, es: seq<real>, ws: seq<Work>)
  {
    forall p, q, a, b ::
      (0 <= p < q < |rs| && q < |es| && 0 <= a < |ws| && 0 <= b < |ws| &&
       rs[p] == ws[a] && rs[q] == ws[b] && es[p] == es[q]) ==> a < b
  }

  /** Inserting the group `ws[i]`, of effect `e`, before the first strictly smaller effect into a
      ranking that holds only groups from before it in `ws` keeps equal effects in the order of `ws`. */
  lemma TiesAfterInsert(rs: seq<Work>, es: seq<real>, k: nat, e: real, ws: seq<Work>, i: nat)
    requires |rs| == |es| && k <= |rs| && i < |ws|
    requires forall j :: 0 <= j < |ws| && j != i ==> ws[j] != ws[i]
    requires forall p, a :: 0 <= p < |rs| && 0 <= a < |ws| && rs[p] == ws[a] ==> a < i
    requires NonIncreasing(es) && (k < |es| ==> es[k] < e)
    requires TiesInOrder(rs, es, ws)
    ensures TiesInOrder(InsertAt(rs, k, ws[i]), InsertAt(es, k, e), ws)
  {
    var r, f := InsertAt(rs, k, ws[i]), InsertAt(es, k, e);
    forall p, q, a, b | 0 <= p < q < |r| && 0 <= a < |ws| && 0 <= b < |ws| && r[p] == ws[a] && r[q] == ws[b]
      ensures f[p] == f[q] ==> a < b
    {
      if p == k {
        assert f[q] == es[q - 1] <= es[k] < e == f[p];
      } else if q == k {
        assert r[p] == rs[p];
      } else {
        var p', q' := if p < k then p else p - 1, if q < k then q else q - 1;
        assert r[p] == rs[p'] && r[q] == rs[q'] && f[p] == es[p'] && f[q] == es[q'];
      }
    }
  }

  /** A ranking is determined by its groups: two rankings of the same groups, each holding every
      group once, effects highest first and equal effects in the order of `ws`, are the same
      sequence, the stable ordering of those groups by effect. */
  lemma {:induction false} RankingUnique(r1: seq<Work>, e1: seq<real>, r2: seq<Work>, e2: seq<real>, ws: seq<Work>)
    requires |r1| == |e1| && |r2| == |e2|
    requires DistinctGroups(r1) && DistinctGroups(r2)
    requires forall x :: x in r1 <==> x in r2
    requires forall x :: x in r1 ==> x in ws
    requires forall p, q :: 0 <= p < |r1| && 0 <= q < |r2| && r1[p] == r2[q] ==> e1[p] == e2[q]
    requires NonIncreasing(e1) && NonIncreasing(e2)
    requires TiesInOrder(r1, e1, ws) && TiesInOrder(r2, e2, ws)
    ensures r1 == r2
  {
    assert r1 != [] ==> r1[0] in r2;
    assert r2 != [] ==> r2[0] in r1;
    if r1 != [] {
      var p :| 0 <= p < |r1| && r1[p] == r2[0];
      var q :| 0 <= q < |r2| && r2[q] == r1[0];
      var a :| 0 <= a < |ws| && ws[a] == r1[0];
      var b :| 0 <= b < |ws| && ws[b] == r1[p];
      assert e1[0] >= e1[p] == e2[0] >= e2[q] == e1[0];
      assert (p == 0 <==> q == 0) && (0 < p ==> a < b) && (0 < q ==> b < a);
      assert p == 0;
      var t1, f1, t2, f2 := r1[1..], e1[1..], r2[1..], e2[1..];
      forall x
        ensures x in t1 <==> x in t2
      {
        if x in t1 {
          var i :| 0 <= i < |t1| && t1[i] == x;
          assert r1[i + 1] == x && x in r2 && x != r2[0];
        }
        if x in t2 {
          var i :| 0 <= i < |t2| && t2[i] == x;
          assert r2[i + 1] == x && x in r1 && x != r1[0];
        }
      }
      assert forall x :: x in t1 ==> x in r1;
      RankingUnique(t1, f1, t2, f2, ws);
      assert r1 == [r1[0]] + t1 && r2 == [r2[0]] + t2;
    }
  }

  /** Inserting a group the ranking does not hold yet keeps each group in it once. */
  lemma DistinctAfterInsert(rs: seq<Work>, k: nat, w: Work)
    requires k <= |rs| && DistinctGroups(rs) && w !in rs
    ensures DistinctGroups(InsertAt(rs, k, w))
  {
    var r := InsertAt(rs, k, w);
    forall p, q | 0 <= p < q < |r|
      ensures r[p] != r[q]
    {
      var p', q' := if p < k then p else p - 1, if q < k then q else q - 1;
      if p != k && q != k {
        assert r[p] == rs[p'] && r[q] == rs[q'];
      } else if p == k {
        assert r[q] == rs[q'];
      } else {
        assert r[p] == rs[p'];
      }
    }
  }

  class Course {
    const name: string
    /** Sum of grade*weight over the items with status >= 1.5. */
    var grade: real
    /** Sum of weight over the items with status >= 1.5. */
    var maxGrade: real
    var data: seq<Data>
    var nameToWork: map<string, Work>
    /** The keys of `nameToWork` in the order they were added (the dictionary's iteration order). */
    var workOrder: seq<string>

    constructor (name: string)
      ensures this.name == name && grade == 0.0 && maxGrade == 0.0 && data == []
      ensures nameToWork == map[] && workOrder == []
      ensures Valid() && TotalsAgree()
    {
      this.name := name;
      grade := 0.0;
      maxGrade := 0.0;
      data := [];
      nameToWork := map[];
      workOrder := [];
    }

    /** The group dictionary is consistent: its order lists each key once, different keys
        hold different groups, and the group under `k` belongs to this course and has type `k`. */
    ghost predicate Valid()
      reads this
    {
      && (forall i, j :: 0 <= i < j < |workOrder| ==> workOrder[i] != workOrder[j])
      && (forall k :: k in nameToWork <==> k in workOrder)
      && (forall k, k' :: k in nameToWork && k' in nameToWork && k != k' ==> nameToWork[k] != nameToWork[k'])
      && (forall k :: k in nameToWork ==> nameToWork[k].course == name && nameToWork[k].kind == k)
    }

    /** No item has been grouped yet, as while the rows are being read. */
    predicate Ungrouped()
      reads this
    {
      nameToWork == map[] && workOrder == []
    }

    /** The running totals are the sums over the qualifying items. */
    ghost predicate TotalsAgree()
      reads this
    {
      grade == QualSum(data, Achieved) && maxGrade == QualSum(data, Possible)
    }

    ghost function Works(): set<Work>
      reads this
    {
      set k | k in nameToWork :: nameToWork[k]
    }

    /** The groups are those of the current items: one per type in first-appearance order,
        each holding the items of its type with status not -1 in input order. */
    ghost predicate GroupsCurrent()
      reads this, Works()
    {
      && workOrder == TypeOrder(data)
      && forall k :: k in nameToWork ==> nameToWork[k].workList == OfType(data, k)
    }

    method UpdateGrade(g: real)
      modifies this
      ensures grade == old(grade) + g
      ensures maxGrade == old(maxGrade) && data == old(data)
      ensures nameToWork == old(nameToWork) && workOrder == old(workOrder)
    {
      grade := grade + g;
    }

    method UpdateMaxGrade(w: real)
      modifies this
      ensures maxGrade == old(maxGrade) + w
      ensures grade == old(grade) && data == old(data)
      ensures nameToWork == old(nameToWork) && workOrder == old(workOrder)
    {
      maxGrade := maxGrade + w;
    }

    method DataAppend(d: Data)
      modifies this
      ensures data == old(data) + [d]
      ensures grade == old(grade) && maxGrade == old(maxGrade)
      ensures nameToWork == old(nameToWork) && workOrder == old(workOrder)
    {
      data := data + [d];
    }

    // ----- statistics -----

    /** The course is done when the weight marked so far rounds to the whole course. */
    function IsCourseDone(): (r: bool)
      reads this
      ensures r <==> 0.995 <= maxGrade <= 1.005
    {
      Round2ZeroIff(1.0 - maxGrade);
      Round2(1.0 - maxGrade) == 0.0
    }

    /** The percentage achieved on the marked work, to the hundredth; 0 before anything is marked. */
    function CurrentGrade(): (r: real)
      reads this
      ensures maxGrade == 0.0 ==> r == 0.0
      ensures maxGrade != 0.0 ==> Abs(r - grade / maxGrade) <= 0.005
    {
      if maxGrade == 0.0 then 0.0
      else
        Round2Near(grade / maxGrade);
        Round2(grade / maxGrade)
    }

    /** The average needed on the unmarked weight to finish at the wanted grade. The script
        divides by 1 - max_grade and calls this only for a course that is not done. */
    function NeededGrade(): (r: real)
      reads this
      requires maxGrade != 1.0
      ensures Abs(grade + r * (1.0 - maxGrade) - (WantedGrade - 0.5)) <= 0.005 * Abs(1.0 - maxGrade)
    {
      NeededReachesTarget(grade, maxGrade);
      Round2((WantedGrade - 0.5 - grade) / (1.0 - maxGrade))
    }

    /** The final percentage if all unmarked work scores 0. */
    function GradeIfDidNothing(): (r: real)
      reads this
      ensures Abs(r - grade) <= 0.005
    {
      Round2Near(grade);
      Round2(grade)
    }

    /** The final percentage if all unmarked work scores 100. */
    function GradeIfYouAce(): (r: real)
      reads this
      ensures Abs(r - (grade + 100.0 * (1.0 - maxGrade))) <= 0.005
    {
      Round2Near(100.0 - maxGrade * 100.0 + grade);
      Round2(100.0 - maxGrade * 100.0 + grade)
    }

    /** While at most the whole course has been marked, acing the rest never gives less than doing nothing. */
    lemma AceNotBelowNothing()
      requires maxGrade <= 1.0
      ensures GradeIfDidNothing() <= GradeIfYouAce()
    {
      Round2Monotone(grade, 100.0 - maxGrade * 100.0 + grade);
    }

    /** With grades in 0..100 and non-negative weights, the current grade is a percentage. */
    lemma CurrentGradeIsPercentage()
      requires TotalsAgree()
      requires forall i :: 0 <= i < |data| && Qualifies(data[i]) ==> 0.0 <= data[i].grade <= 100.0 && data[i].weight >= 0.0
      ensures 0.0 <= CurrentGrade() <= 100.0
    {
      QualSumBounds(data);
      if maxGrade != 0.0 {
        var q := grade / maxGrade;
        assert 0.0 <= q <= 100.0 by {
          assert maxGrade > 0.0;
          assert q * maxGrade == grade;
        }
        Round2Monotone(0.0, q);
        Round2Monotone(q, 100.0);
        Round2Exact(0);
        Round2Exact(10000);
      }
    }

    /** A course with Quiz 1 (status 2, grade 80, weight 0.2), a Midterm (status 2, grade 90,
        weight 0.3) and an unmarked Final (status 0, weight 0.5) stands at 86% with half the
        weight marked, is not done, and needs a 93% average on the rest. */
    lemma HalfMarkedExample()
      requires TotalsAgree()
      requires data == [Data(name, "Quiz", Numbered("1"), "Jan 30", 2.0, 80.0, 0.2),
                        Data(name, "Midterm", Unnumbered, "Feb 27", 2.0, 90.0, 0.3),
                        Data(name, "Final", Unnumbered, "Apr 20", 0.0, -1.0, 0.5)]
      ensures grade == 43.0 && maxGrade == 0.5
      ensures !IsCourseDone() && CurrentGrade() == 86.0 && NeededGrade() == 93.0
    {
      var quiz, midterm, final := data[0], data[1], data[2];
      assert [] + [quiz] == [quiz] && [quiz] + [midterm] == [quiz, midterm];
      assert [quiz, midterm] + [final] == data;
      forall c: Column
        ensures QualSum(data, c) == Share(quiz, c) + Share(midterm, c) + Share(final, c)
      {
        QualSumSnoc([], quiz, c);
        QualSumSnoc([quiz], midterm, c);
        QualSumSnoc([quiz, midterm], final, c);
      }
      assert grade == 43.0 by {
        assert QualSum(data, Achieved) == 80.0 * 0.2 + 90.0 * 0.3;
      }
      Round2Exact(8600);
      Round2Exact(9300);
    }

    /** The driver's per-course report: the needed grade is computed only when the course
        is not done, which keeps its denominator away from zero. */
    function Report(): (r: Summary)
      reads this
      ensures r.Finished? <==> 0.995 <= maxGrade <= 1.005
      ensures r.Finished? ==> r.finalGrade == CurrentGrade()
      ensures r.InProgress? ==> Abs(1.0 - maxGrade) > 0.005 && r.needed == NeededGrade()
      ensures r.InProgress? ==> r.current == CurrentGrade()
      ensures r.InProgress? ==> r.ifNothing == GradeIfDidNothing() && r.ifAce == GradeIfYouAce()
      ensures r.InProgress? && maxGrade <= 1.0 ==> r.ifNothing <= r.ifAce
    {
      if IsCourseDone() then Finished(CurrentGrade())
      else
        var needed := NeededGrade();
        var ifNothing, ifAce := GradeIfDidNothing(), GradeIfYouAce();
        assert maxGrade <= 1.0 ==> ifNothing <= ifAce by {
          if maxGrade <= 1.0 {
            AceNotBelowNothing();
          }
        }
        InProgress(CurrentGrade(), needed, ifNothing, ifAce)
    }

    // ----- work groups -----

    /** Builds the groups from the items, once: when the dictionary is still empty, each item
        with status not -1 is appended to the group of its type, created on first sighting.
        A second call changes nothing. */
    method MakeSubGroups()
      requires Valid()
      modifies this
      ensures Valid()
      ensures data == old(data) && grade == old(grade) && maxGrade == old(maxGrade)
      ensures old(workOrder) == [] ==> GroupsCurrent()
      ensures old(workOrder) == [] ==> forall k :: k in nameToWork ==> fresh(nameToWork[k])
      ensures old(workOrder) == [] ==> forall k :: k in nameToWork ==> nameToWork[k].effect == 0.0
      ensures old(workOrder) != [] ==> nameToWork == old(nameToWork) && workOrder == old(workOrder)
      ensures old(GroupsCurrent()) ==> nameToWork == old(nameToWork) && workOrder == old(workOrder)
      ensures old(GroupsCurrent()) ==> GroupsCurrent()
    {
      if workOrder == [] {
        BuildGroups();
      }
    }

    /** The grouping loop, run on an empty dictionary. */
    method BuildGroups()
      requires Valid() && workOrder == []
      modifies this
      ensures Valid() && GroupsCurrent()
      ensures data == old(data) && grade == old(grade) && maxGrade == old(maxGrade)
      ensures forall k :: k in nameToWork ==> fresh(nameToWork[k])
      ensures forall k :: k in nameToWork ==> nameToWork[k].effect == 0.0
    {
      var i := 0;
      while i < |data|
        invariant 0 <= i <= |data|
        invariant Valid()
        invariant data == old(data) && grade == old(grade) && maxGrade == old(maxGrade)
        invariant workOrder == TypeOrder(data[..i])
        invariant forall k :: k in nameToWork ==> fresh(nameToWork[k])
        invariant forall k :: k in nameToWork ==> nameToWork[k].workList == OfType(data[..i], k)
        invariant forall k :: k in nameToWork ==> nameToWork[k].effect == 0.0
      {
        assert data[..i + 1] == data[..i] + [data[i]];
        GroupStep(data[i], data[..i]);
        i := i + 1;
      }
      assert data[..i] == data;
    }

    /** One turn of the grouping loop: after the items `seen`, the item `d` is entered when
        its status is not -1, and the groups are then those of `seen + [d]`. */
    method GroupStep(d: Data, ghost seen: seq<Data>)
      requires Valid() && workOrder == TypeOrder(seen)
      requires forall k :: k in nameToWork ==> nameToWork[k].workList == OfType(seen, k)
      requires forall k :: k in nameToWork ==> nameToWork[k].effect == 0.0
      modifies this, Works()
      ensures Valid()
      ensures data == old(data) && grade == old(grade) && maxGrade == old(maxGrade)
      ensures workOrder == TypeOrder(seen + [d])
      ensures forall k :: k in nameToWork ==> nameToWork[k].workList == OfType(seen + [d], k)
      ensures forall k :: k in nameToWork ==> nameToWork[k].effect == 0.0
      ensures forall k :: k in nameToWork ==>
        (k in old(nameToWork) && nameToWork[k] == old(nameToWork[k])) || fresh(nameToWork[k])
    {
      TypeOrderSnoc(seen, d);
      if d.status != -1.0 {
        Enter(d);
      }
      forall k | k in nameToWork
        ensures nameToWork[k].workList == OfType(seen + [d], k)
      {
        OfTypeSnoc(seen, d, k);
      }
    }

    /** The body of the grouping loop for an item with status not -1: the item joins the
        group of its type, which is created on the first sighting of that type. */
    method Enter(d: Data)
      requires Valid() && d.status != -1.0
      modifies this, Works()
      ensures Valid()
      ensures data == old(data) && grade == old(grade) && maxGrade == old(maxGrade)
      ensures d.kind in old(nameToWork) ==> workOrder == old(workOrder)
      ensures d.kind !in old(nameToWork) ==> workOrder == old(workOrder) + [d.kind]
      ensures d.kind in nameToWork && nameToWork.Keys == old(nameToWork.Keys) + {d.kind}
      ensures forall k :: k in old(nameToWork) ==> nameToWork[k] == old(nameToWork[k])
      ensures d.kind !in old(nameToWork) ==> fresh(nameToWork[d.kind]) && nameToWork[d.kind].workList == [d]
      ensures d.kind in old(nameToWork) ==> nameToWork[d.kind].workList == old(nameToWork[d.kind].workList) + [d]
      ensures forall k :: k in old(nameToWork) && k != d.kind ==> nameToWork[k].workList == old(nameToWork[k].workList)
      ensures forall k :: k in nameToWork ==>
                nameToWork[k].effect == if k in old(nameToWork) then old(nameToWork[k].effect) else 0.0
    {
      if d.kind !in nameToWork {
        var w := new Work(name, d.kind);
        nameToWork := nameToWork[d.kind := w];
        workOrder := workOrder + [d.kind];
      }
      nameToWork[d.kind].WorkAppend(d);
    }

    /** Groups the items (once) and ranks the groups with marked weight by effect; the
        ranking is what gets printed. Each marked group is in one node, highest effect first,
        with equal effects in dictionary order. Each group's totals are the sums over its own
        items, and when the groups are those of the current items they add up to the course totals. */
    method AverageOfGroups() returns (list: LinkedList)
      requires Valid()
      modifies this, Works()
      ensures Valid() && data == old(data) && grade == old(grade) && maxGrade == old(maxGrade)
      ensures fresh(list) && list.Valid() && list.Works() <= Works()
      ensures forall k :: k in nameToWork ==> (nameToWork[k] in list.Works() <==> nameToWork[k].maxGrade != 0.0)
      ensures forall k :: k in nameToWork ==> Summed(nameToWork[k], CurrentGrade())
      ensures DistinctGroups(DataOf(list.nodes)) && |list.nodes| == |list.Works()|
      ensures TiesInOrder(DataOf(list.nodes), list.Effects(), WorkSeq())
      ensures old(workOrder) == [] || old(GroupsCurrent()) ==> GroupsCurrent()
      ensures old(workOrder) != [] ==> nameToWork == old(nameToWork) && workOrder == old(workOrder)
      ensures old(workOrder) != [] ==>
                forall k :: k in nameToWork ==> nameToWork[k].workList == old(nameToWork[k].workList)
      ensures old(workOrder) != [] ==>
                forall k :: k in nameToWork && nameToWork[k].maxGrade == 0.0 ==>
                  nameToWork[k].effect == old(nameToWork[k].effect)
      ensures old(workOrder) == [] ==>
                forall k :: k in nameToWork && nameToWork[k].maxGrade == 0.0 ==> nameToWork[k].effect == 0.0
      ensures GroupsCurrent() && TotalsAgree() ==>
                GroupSum(workOrder, Achieved) == grade && GroupSum(workOrder, Possible) == maxGrade
    {
      MakeSubGroups();
      ghost var grouped := GroupsCurrent();
      list := RankGroups();
      assert grouped ==> GroupsCurrent();
      if GroupsCurrent() && TotalsAgree() {
        GroupSumsMatchCourse();
      }
    }

    /** Sum of column `c` over the groups named by `ks`, as the groups hold it. */
    ghost function GroupSum(ks: seq<string>, c: Column): real
      reads this, Works()
      requires forall k :: k in ks ==> k in nameToWork
    {
      if ks == [] then 0.0
      else GroupSum(ks[..|ks| - 1], c) + nameToWork[ks[|ks| - 1]].Total(c)
    }

    /** Groups that are current and have been summed add up to the course totals:
        Σ group grade == course grade and Σ group max_grade == course max_grade. */
    lemma GroupSumsMatchCourse()
      requires Valid() && GroupsCurrent() && TotalsAgree()
      requires forall k :: k in nameToWork ==> nameToWork[k].grade == QualSum(nameToWork[k].workList, Achieved)
      requires forall k :: k in nameToWork ==> nameToWork[k].maxGrade == QualSum(nameToWork[k].workList, Possible)
      ensures GroupSum(workOrder, Achieved) == grade
      ensures GroupSum(workOrder, Possible) == maxGrade
    {
      GroupSumIsGroupsTotal(workOrder, Achieved);
      GroupSumIsGroupsTotal(workOrder, Possible);
      PartitionTotals(data, Achieved);
      PartitionTotals(data, Possible);
    }

    lemma {:induction false} GroupSumIsGroupsTotal(ks: seq<string>, c: Column)
      requires forall k :: k in ks ==> k in nameToWork
      requires forall k :: k in nameToWork ==> nameToWork[k].workList == OfType(data, k)
      requires forall k :: k in nameToWork ==> nameToWork[k].Total(c) == QualSum(nameToWork[k].workList, c)
      ensures GroupSum(ks, c) == GroupsTotal(ks, data, c)
    {
      if ks != [] {
        GroupSumIsGroupsTotal(ks[..|ks| - 1], c);
      }
    }

    /** Sums every group in dictionary order and ranks the groups with marked weight by their
        effect, the rounded difference between what the group earned and what the current
        grade would have given it: each marked group in one node, highest effect first, and
        groups of equal effect in dictionary order. */
    method RankGroups() returns (list: LinkedList)
      requires Valid()
      modifies Works()
      ensures fresh(list) && list.Valid()
      ensures list.Works() <= Works()
      ensures forall k :: k in nameToWork ==> (nameToWork[k] in list.Works() <==> nameToWork[k].maxGrade != 0.0)
      ensures forall k :: k in nameToWork ==> nameToWork[k].workList == old(nameToWork[k].workList)
      ensures forall k :: k in nameToWork ==> Summed(nameToWork[k], CurrentGrade())
      ensures forall k :: k in nameToWork && nameToWork[k].maxGrade == 0.0 ==>
                nameToWork[k].effect == old(nameToWork[k].effect)
      ensures DistinctGroups(DataOf(list.nodes)) && TiesInOrder(DataOf(list.nodes), list.Effects(), WorkSeq())
      ensures |list.nodes| == |list.Works()|
    {
      ghost var ws := WorkSeq();
      ghost var e0 := seq(|ws|, j requires 0 <= j < |ws| reads ws => ws[j].effect);
      list := RankLoop(ws, e0);
      list.WorksCount();
      assert WorkSeq() == ws;
      forall k | k in nameToWork
        ensures Summed(nameToWork[k], CurrentGrade())
        ensures nameToWork[k].workList == old(nameToWork[k].workList)
        ensures nameToWork[k].maxGrade == 0.0 ==> nameToWork[k].effect == old(nameToWork[k].effect)
        ensures nameToWork[k] in list.Works() <==> nameToWork[k].maxGrade != 0.0
      {
        var j :| 0 <= j < |workOrder| && workOrder[j] == k;
        assert nameToWork[k] == ws[j];
      }
    }

    /** The ranking loop over the groups `ws`, the dictionary's groups in its order, stated
        by position: each group is summed, the marked ones are ranked, and the others keep
        their effect. */
    method RankLoop(ghost ws: seq<Work>, ghost e0: seq<real>) returns (list: LinkedList)
      requires Valid() && ws == WorkSeq()
      requires |e0| == |ws| && forall j :: 0 <= j < |ws| ==> ws[j].effect == e0[j]
      modifies Works()
      ensures fresh(list) && list.Valid() && list.Works() <= Works()
      ensures DistinctGroups(DataOf(list.nodes)) && TiesInOrder(DataOf(list.nodes), list.Effects(), ws)
      ensures forall j :: 0 <= j < |ws| ==> ws[j].workList == old(ws[j].workList)
      ensures forall j :: 0 <= j < |ws| && ws[j].maxGrade == 0.0 ==> ws[j].effect == e0[j]
      ensures forall j :: 0 <= j < |ws| ==>
                Summed(ws[j], CurrentGrade()) && (ws[j] in list.Works() <==> ws[j].maxGrade != 0.0)
    {
      list := new LinkedList();
      ghost var c := CurrentGrade();
      ghost var ranked: set<Work> := {};
      var i := 0;
      while i < |workOrder|
        invariant 0 <= i <= |workOrder|
        invariant fresh(list) && list.Valid() && list.Works() == ranked
        invariant DistinctGroups(DataOf(list.nodes)) && TiesInOrder(DataOf(list.nodes), list.Effects(), ws)
        invariant forall x :: x in list.nodes ==> fresh(x)
        invariant ranked <= Works()
        invariant forall j :: 0 <= j < |ws| ==> ws[j].workList == old(ws[j].workList)
        invariant Progress(ws, e0, c, i, ranked)
      {
        ranked := RankTurn(list, i, ws, e0, ranked);
        i := i + 1;
      }
    }

    /** The turn of the ranking loop at position `i`: the group found there in the dictionary
        is summed and ranked as RankStep says. */
    method RankTurn(list: LinkedList, i: nat, ghost ws: seq<Work>, ghost e0: seq<real>, ghost ranked: set<Work>)
      returns (ghost ranked': set<Work>)
      requires Valid() && ws == WorkSeq() && i < |ws|
      requires list.Valid() && list.Works() == ranked
      requires DistinctGroups(DataOf(list.nodes)) && TiesInOrder(DataOf(list.nodes), list.Effects(), ws)
      requires |e0| == |ws| && Progress(ws, e0, CurrentGrade(), i, ranked)
      modifies ws[i], list, (set x | x in list.nodes)
      ensures list.Valid() && list.Works() == ranked' && ranked' <= ranked + {ws[i]}
      ensures DistinctGroups(DataOf(list.nodes)) && TiesInOrder(DataOf(list.nodes), list.Effects(), ws)
      ensures Progress(ws, e0, CurrentGrade(), i + 1, ranked')
      ensures forall j :: 0 <= j < |ws| ==> ws[j].workList == old(ws[j].workList)
      ensures forall x :: x in list.nodes ==> x in old(list.nodes) || fresh(x)
    {
      var w := nameToWork[workOrder[i]];
      assert w == ws[i];
      ranked' := RankStep(list, w, CurrentGrade(), i, ws, e0, ranked);
    }

    /** The ranking loop's progress over the groups `ws` with their effects `e0` from before it:
        those before position `i` are summed against `c`, ranked exactly when they have marked
        weight, and keep their effect otherwise; those from `i` on are unranked and untouched. */
    static ghost predicate Progress(ws: seq<Work>, e0: seq<real>, c: real, i: nat, ranked: set<Work>)
      reads set j | 0 <= j < |ws| :: ws[j]
      requires |e0| == |ws|
    {
      && (forall j :: 0 <= j < i && j < |ws| ==>
            && Summed(ws[j], c) && (ws[j] in ranked <==> ws[j].maxGrade != 0.0)
            && (ws[j].maxGrade == 0.0 ==> ws[j].effect == e0[j]))
      && (forall j :: i <= j < |ws| ==> ws[j] !in ranked && ws[j].effect == e0[j])
    }

    /** One turn of the ranking loop, on the group `w` at position `i` of the dictionary: it is
        summed against the current grade and, when it has marked weight, ranked in a node of its
        own at its place by effect. The loop's progress moves past `w`: the groups up to it are
        summed and ranked, each once, with equal effects in dictionary order, an unmarked `w`
        keeps its effect, and the groups after it are untouched. */
    static method RankStep(list: LinkedList, w: Work, current: real, i: nat, ghost ws: seq<Work>,
                           ghost e0: seq<real>, ghost ranked: set<Work>)
      returns (ghost ranked': set<Work>)
      requires i < |ws| && w == ws[i] && |e0| == |ws|
      requires forall j :: 0 <= j < |ws| && j != i ==> ws[j] != w
      requires list.Valid() && list.Works() == ranked
      requires DistinctGroups(DataOf(list.nodes)) && TiesInOrder(DataOf(list.nodes), list.Effects(), ws)
      requires Progress(ws, e0, current, i, ranked)
      modifies w, list, (set x | x in list.nodes)
      ensures list.Valid() && list.Works() == ranked'
      ensures DistinctGroups(DataOf(list.nodes)) && TiesInOrder(DataOf(list.nodes), list.Effects(), ws)
      ensures ranked' == ranked + (if w.maxGrade != 0.0 then {w} else {})
      ensures w.maxGrade == 0.0 ==> list.nodes == old(list.nodes)
      ensures w.maxGrade != 0.0 ==>
                var k := FirstBelow(old(list.Effects()), w.effect);
                && |list.nodes| == |old(list.nodes)| + 1
                && DataOf(list.nodes) == InsertAt(DataOf(old(list.nodes)), k, w)
      ensures Progress(ws, e0, current, i + 1, ranked')
      ensures forall j :: 0 <= j < |ws| ==> ws[j].workList == old(ws[j].workList)
      ensures forall x :: x in list.nodes ==> x in old(list.nodes) || fresh(x)
    {
      ghost var effects := list.Effects();
      SumGroup(w, current);
      ranked' := ranked + (if w.maxGrade != 0.0 then {w} else {});
      forall j | 0 <= j < |ws| && j != i
        ensures ws[j].workList == old(ws[j].workList)
      {
        assert ws[j] != w;
      }
      assert Progress(ws, e0, current, i + 1, ranked');
      assert list.Effects() == effects;
      if w.maxGrade != 0.0 {
        RankMarked(list, w, current, i, ws, e0, ranked);
      }
    }

    /** The ranking half of a turn, on the summed group `w` at position `i`, which has marked
        weight: it is ranked into the list, which holds only groups from before it, and the
        loop's progress past `w` is kept, since the groups themselves are left as they are. */
    static method RankMarked(list: LinkedList, w: Work, ghost current: real, i: nat, ghost ws: seq<Work>,
                             ghost e0: seq<real>, ghost ranked: set<Work>)
      requires i < |ws| && w == ws[i] && w.maxGrade != 0.0 && |e0| == |ws|
      requires forall j :: 0 <= j < |ws| && j != i ==> ws[j] != w
      requires list.Valid() && list.Works() == ranked
      requires DistinctGroups(DataOf(list.nodes)) && TiesInOrder(DataOf(list.nodes), list.Effects(), ws)
      requires forall j :: i <= j < |ws| ==> ws[j] !in ranked
      requires Progress(ws, e0, current, i + 1, ranked + {w})
      modifies list, (set x | x in list.nodes)
      ensures list.Valid() && list.Works() == ranked + {w}
      ensures DistinctGroups(DataOf(list.nodes)) && TiesInOrder(DataOf(list.nodes), list.Effects(), ws)
      ensures var k := FirstBelow(old(list.Effects()), w.effect);
              && |list.nodes| == |old(list.nodes)| + 1
              && DataOf(list.nodes) == InsertAt(DataOf(old(list.nodes)), k, w)
      ensures forall j :: 0 <= j < |ws| ==> ws[j].workList == old(ws[j].workList)
      ensures Progress(ws, e0, current, i + 1, ranked + {w})
      ensures forall x :: x in list.nodes ==> x in old(list.nodes) || fresh(x)
    {
      forall p, a | 0 <= p < |list.nodes| && 0 <= a < |ws| && list.nodes[p].data == ws[a]
        ensures a < i
      {
        assert ws[a] in ranked;
      }
      RankInOrder(list, w, i, ws);
    }

    /** Ranks the group `w`, at position `i` of the dictionary, into a list that holds only
        groups from before it: each group once, and equal effects in dictionary order. */
    static method RankInOrder(list: LinkedList, w: Work, i: nat, ghost ws: seq<Work>)
      requires i < |ws| && w == ws[i]
      requires forall j :: 0 <= j < |ws| && j != i ==> ws[j] != w
      requires list.Valid() && w !in list.Works()
      requires DistinctGroups(DataOf(list.nodes)) && TiesInOrder(DataOf(list.nodes), list.Effects(), ws)
      requires forall p, a :: 0 <= p < |list.nodes| && 0 <= a < |ws| && list.nodes[p].data == ws[a] ==> a < i
      modifies list, (set x | x in list.nodes)
      ensures list.Valid() && list.Works() == old(list.Works()) + {w}
      ensures DistinctGroups(DataOf(list.nodes)) && TiesInOrder(DataOf(list.nodes), list.Effects(), ws)
      ensures var k := FirstBelow(old(list.Effects()), w.effect);
              && |list.nodes| == |old(list.nodes)| + 1
              && DataOf(list.nodes) == InsertAt(DataOf(old(list.nodes)), k, w)
      ensures forall x :: x in list.nodes ==> x in old(list.nodes) || fresh(x)
      ensures forall j :: 0 <= j < |ws| ==>
                && ws[j].maxGrade == old(ws[j].maxGrade) && ws[j].grade == old(ws[j].grade)
                && ws[j].effect == old(ws[j].effect) && ws[j].workList == old(ws[j].workList)
    {
      ghost var rs, es := DataOf(list.nodes), list.Effects();
      ghost var k := FirstBelow(es, w.effect);
      assert w !in rs;
      TiesAfterInsert(rs, es, k, w.effect, ws, i);
      DistinctAfterInsert(rs, k, w);
      Rank(list, w);
    }

    /** The groups in dictionary order; different positions hold different groups. */
    ghost function WorkSeq(): (ws: seq<Work>)
      reads this
      requires Valid()
      ensures |ws| == |workOrder|
      ensures forall j :: 0 <= j < |ws| ==> workOrder[j] in nameToWork && ws[j] == nameToWork[workOrder[j]]
      ensures forall j, j' :: 0 <= j < j' < |ws| ==> ws[j] != ws[j']
    {
      assert forall j :: 0 <= j < |workOrder| ==> workOrder[j] in nameToWork;
      seq(|workOrder|, j requires 0 <= j < |workOrder| && workOrder[j] in nameToWork reads this =>
        nameToWork[workOrder[j]])
    }

    /** Sums group `w` and, when it has marked weight, sets its effect against `current`. */
    static method SumGroup(w: Work, current: real)
      modifies w
      ensures Summed(w, current) && w.workList == old(w.workList)
      ensures w.maxGrade == 0.0 ==> w.effect == old(w.effect)
    {
      w.CalculateGrade();
      if w.maxGrade != 0.0 {
        var workGrade, workMaxGrade := w.grade, w.maxGrade;
        w.SetEffect(Round2(GroupEffect(workGrade, workMaxGrade, current)));
      }
    }

    /** Puts the summed group `w` into the ranking in a node of its own, made for it and placed
        before the first node of strictly smaller effect. */
    static method Rank(list: LinkedList, w: Work)
      requires list.Valid() && w !in list.Works()
      modifies list, (set x | x in list.nodes)
      ensures list.Valid() && list.Works() == old(list.Works()) + {w}
      ensures var k := FirstBelow(old(list.Effects()), w.effect);
              && |list.nodes| == |old(list.nodes)| + 1
              && DataOf(list.nodes) == InsertAt(DataOf(old(list.nodes)), k, w)
              && list.Effects() == InsertAt(old(list.Effects()), k, w.effect)
      ensures forall x :: x in list.nodes ==> x in old(list.nodes) || fresh(x)
    {
      var node := new WorkNode(w);
      list.Add(node);
    }

    // ----- best and worst item -----

    /** The qualifying item that raised the grade most; the first one on ties; None ("no contest")
        when no item qualifies. */
    method Mvp() returns (r: Option<nat>)
      ensures r.None? <==> forall i :: 0 <= i < |data| ==> !Qualifies(data[i])
      ensures r.Some? ==> r.value < |data| && Qualifies(data[r.value])
      ensures r.Some? ==> forall i :: 0 <= i < |data| && Qualifies(data[i]) ==>
                ItemEffect(data[i], CurrentGrade()) <= ItemEffect(data[r.value], CurrentGrade())
      ensures r.Some? ==> forall i :: 0 <= i < r.value && Qualifies(data[i]) ==>
                ItemEffect(data[i], CurrentGrade()) < ItemEffect(data[r.value], CurrentGrade())
    {
      var highest: Option<real> := None;
      r := None;
      var i := 0;
      while i < |data|
        invariant 0 <= i <= |data|
        invariant r.None? <==> highest.None?
        invariant r.None? <==> forall j :: 0 <= j < i ==> !Qualifies(data[j])
        invariant r.Some? ==> r.value < i && Qualifies(data[r.value])
        invariant r.Some? ==> highest.value == ItemEffect(data[r.value], CurrentGrade())
        invariant r.Some? ==> forall j :: 0 <= j < i && Qualifies(data[j]) ==>
                    ItemEffect(data[j], CurrentGrade()) <= highest.value
        invariant r.Some? ==> forall j :: 0 <= j < r.value && Qualifies(data[j]) ==>
                    ItemEffect(data[j], CurrentGrade()) < highest.value
      {
        var d := data[i];
        if d.status >= 1.5 {
          var effect := d.grade * d.weight - d.weight * CurrentGrade();
          if highest.None? || effect > highest.value {
            highest := Some(effect);
            r := Some(i);
          }
        }
        i := i + 1;
      }
    }

    /** The qualifying item that pulled the grade down most; the first one on ties; None
        ("no contest") when no item qualifies. */
    method BiggestL() returns (r: Option<nat>)
      ensures r.None? <==> forall i :: 0 <= i < |data| ==> !Qualifies(data[i])
      ensures r.Some? ==> r.value < |data| && Qualifies(data[r.value])
      ensures r.Some? ==> forall i :: 0 <= i < |data| && Qualifies(data[i]) ==>
                ItemEffect(data[r.value], CurrentGrade()) <= ItemEffect(data[i], CurrentGrade())
      ensures r.Some? ==> forall i :: 0 <= i < r.value && Qualifies(data[i]) ==>
                ItemEffect(data[r.value], CurrentGrade()) < ItemEffect(data[i], CurrentGrade())
    {
      var lowest: Option<real> := None;
      r := None;
      var i := 0;
      while i < |data|
        invariant 0 <= i <= |data|
        invariant r.None? <==> lowest.None?
        invariant r.None? <==> forall j :: 0 <= j < i ==> !Qualifies(data[j])
        invariant r.Some? ==> r.value < i && Qualifies(data[r.value])
        invariant r.Some? ==> lowest.value == ItemEffect(data[r.value], CurrentGrade())
        invariant r.Some? ==> forall j :: 0 <= j < i && Qualifies(data[j]) ==>
                    lowest.value <= ItemEffect(data[j], CurrentGrade())
        invariant r.Some? ==> forall j :: 0 <= j < r.value && Qualifies(data[j]) ==>
                    lowest.value < ItemEffect(data[j], CurrentGrade())
      {
        var d := data[i];
        if d.status >= 1.5 {
          var effect := d.grade * d.weight - d.weight * CurrentGrade();
          if lowest.None? || effect < lowest.value {
            lowest := Some(effect);
            r := Some(i);
          }
        }
        i := i + 1;
      }
    }

    // ----- range checks -----

    /** Checks every item with status not -1 and the total of their weights. */
    method FindErrors() returns (r: seq<Warning>)
      ensures r == CourseWarnings(name, data)
    {
      var total := 0.0;
      r := [];
      var i := 0;
      while i < |data|
        invariant 0 <= i <= |data|
        invariant total == ActiveWeight(data[..i])
        invariant r == AllItemWarnings(data[..i])
      {
        var d := data[i];
        assert data[..i + 1][..i] == data[..i];
        if d.status != -1.0 {
          total := total + d.weight;
          r := r + ItemWarnings(d);
        }
        i := i + 1;
      }
      assert data[..i] == data;
      if Round2(total) != 1.0 {
        r := r + [CourseWeightError(name, total)];
      }
    }
  }
}
