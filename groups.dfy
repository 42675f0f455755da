/** Work groups: the items of one course that share a type (`Work` in grade_data.py),
    the specification of how a course splits its items into groups, and the proof that
    the groups' totals add up to the course's. */
module Groups {
  import opened Records

  /** The items of `ds` that join the group of type `t`: status not -1 and type `t`, in input order. */
  function OfType(ds: seq<Data>, t: string): (r: seq<Data>)
    ensures forall x :: x in r ==> x in ds && x.status != -1.0 && x.kind == t
    ensures |r| <= |ds|
  {
    if ds == [] then []
    else
      var last := ds[|ds| - 1];
      OfType(ds[..|ds| - 1], t) + (if last.status != -1.0 && last.kind == t then [last] else [])
  }

  /** Grouping distributes over concatenation, so it keeps the input order within a group. */
  lemma {:induction false} OfTypeConcat(xs: seq<Data>, ys: seq<Data>, t: string)
    ensures OfType(xs + ys, t) == OfType(xs, t) + OfType(ys, t)
  {
    if ys == [] {
      assert xs + ys == xs;
    } else {
      var ys' := ys[..|ys| - 1];
      assert (xs + ys)[..|xs + ys| - 1] == xs + ys';
      OfTypeConcat(xs, ys', t);
    }
  }

  /** Every item whose status is not -1 lands in the group of its own type and in no other;
      an item with status -1 lands in no group. */
  lemma {:induction false} ItemInOwnGroup(ds: seq<Data>, i: nat, t: string)
    requires i < |ds|
    ensures ds[i] in OfType(ds, t) <==> ds[i].status != -1.0 && ds[i].kind == t
  {
    if ds[i].status != -1.0 && ds[i].kind == t {
      var xs, ys := ds[..i], ds[i..];
      assert ds == xs + ys;
      assert ys == [ds[i]] + ys[1..];
      OfTypeConcat(xs, ys, t);
      OfTypeConcat([ds[i]], ys[1..], t);
      assert OfType([ds[i]], t) == [ds[i]] by {
        assert [ds[i]][..0] == [];
      }
    }
  }

  /** The group keys in the order the script creates them: each type the first time an
      item with status not -1 shows it. */
  function TypeOrder(ds: seq<Data>): (r: seq<string>)
    ensures forall i, j :: 0 <= i < j < |r| ==> r[i] != r[j]
    ensures forall t :: t in r <==> OfType(ds, t) != []
  {
    if ds == [] then []
    else
      var r := TypeOrder(ds[..|ds| - 1]);
      var last := ds[|ds| - 1];
      if last.status != -1.0 && last.kind !in r then r + [last.kind] else r
  }

  /** Sum of column `c` over the groups named by `ks`. */
  function GroupsTotal(ks: seq<string>, ds: seq<Data>, c: Column): real
  {
    if ks == [] then 0.0
    else GroupsTotal(ks[..|ks| - 1], ds, c) + QualSum(OfType(ds, ks[|ks| - 1]), c)
  }

  /** What item `d` adds to a total of column `c`. */
  function Share(d: Data, c: Column): real
  {
    if Qualifies(d) then Contribution(d, c) else 0.0
  }

  lemma QualSumSnoc(ds: seq<Data>, d: Data, c: Column)
    ensures QualSum(ds + [d], c) == QualSum(ds, c) + Share(d, c)
  {
    assert (ds + [d])[..|ds|] == ds;
  }

  lemma OfTypeSnoc(ds: seq<Data>, d: Data, t: string)
    ensures d.status != -1.0 && d.kind == t ==> OfType(ds + [d], t) == OfType(ds, t) + [d]
    ensures !(d.status != -1.0 && d.kind == t) ==> OfType(ds + [d], t) == OfType(ds, t)
  {
    assert (ds + [d])[..|ds|] == ds;
    assert OfType(ds, t) + [] == OfType(ds, t);
  }

  lemma TypeOrderSnoc(ds: seq<Data>, d: Data)
    ensures d.status != -1.0 && d.kind !in TypeOrder(ds) ==> TypeOrder(ds + [d]) == TypeOrder(ds) + [d.kind]
    ensures !(d.status != -1.0 && d.kind !in TypeOrder(ds)) ==> TypeOrder(ds + [d]) == TypeOrder(ds)
  {
    assert (ds + [d])[..|ds|] == ds;
  }

  /** What one more item adds to the totals of a list of distinct groups. */
  lemma {:induction false} GroupsTotalStep(ks: seq<string>, ds: seq<Data>, d: Data, c: Column)
    requires forall i, j :: 0 <= i < j < |ks| ==> ks[i] != ks[j]
    ensures GroupsTotal(ks, ds + [d], c) == GroupsTotal(ks, ds, c)
              + (if d.status != -1.0 && d.kind in ks then Share(d, c) else 0.0)
  {
    if ks != [] {
      var ks', k := ks[..|ks| - 1], ks[|ks| - 1];
      var joins := d.status != -1.0 && d.kind == k;
      var added := if d.status != -1.0 && d.kind in ks' then Share(d, c) else 0.0;
      GroupsTotalStep(ks', ds, d, c);
      assert GroupsTotal(ks', ds + [d], c) == GroupsTotal(ks', ds, c) + added;
      var before := OfType(ds, k);
      var after := OfType(ds + [d], k);
      OfTypeSnoc(ds, d, k);
      var extra := if joins then Share(d, c) else 0.0;
      assert QualSum(after, c) == QualSum(before, c) + extra by {
        if joins {
          QualSumSnoc(before, d, c);
        }
      }
      assert joins ==> added == 0.0 by {
        if joins { assert k !in ks'; }
      }
      assert (d.status != -1.0 && d.kind in ks) <==> (d.status != -1.0 && d.kind in ks') || joins;
      assert GroupsTotal(ks, ds + [d], c) == GroupsTotal(ks', ds + [d], c) + QualSum(after, c);
      assert GroupsTotal(ks, ds, c) == GroupsTotal(ks', ds, c) + QualSum(before, c);
    }
  }

  /** The groups partition the counted items: their totals add up to the course totals
      (Σ group max_grade == course max_grade and Σ group grade == course grade). */
  lemma {:induction false} PartitionTotals(ds: seq<Data>, c: Column)
    ensures GroupsTotal(TypeOrder(ds), ds, c) == QualSum(ds, c)
  {
    if ds != [] {
      var init, d := ds[..|ds| - 1], ds[|ds| - 1];
      assert ds == init + [d];
      var ks := TypeOrder(init);
      PartitionTotals(init, c);
      GroupsTotalStep(ks, init, d, c);
      QualSumSnoc(init, d, c);
      if d.status == -1.0 {
        assert TypeOrder(ds) == ks;
      } else if d.kind in ks {
        assert TypeOrder(ds) == ks;
      } else {
        var k := d.kind;
        var ks' := ks + [k];
        assert TypeOrder(ds) == ks';
        assert ks'[..|ks|] == ks;
        assert GroupsTotal(ks', ds, c) == GroupsTotal(ks, ds, c) + QualSum(OfType(ds, k), c);
        assert OfType(init, k) == [];
        OfTypeSnoc(init, d, k);
        assert OfType(ds, k) == [] + [d];
        QualSumSnoc([], d, c);
      }
    }
  }

  /** A group of work of one type in one course. `grade` and `maxGrade` are the group's
      achieved and possible totals once CalculateGrade has run; `effect` is set by the course. */
  class Work {
    const course: string
    const kind: string
    var workList: seq<Data>
    var effect: real
    var grade: real
    var maxGrade: real

    constructor (course: string, kind: string)
      ensures this.course == course && this.kind == kind
      ensures workList == [] && effect == 0.0 && grade == 0.0 && maxGrade == 0.0
    {
      this.course := course;
      this.kind := kind;
      workList := [];
      effect := 0.0;
      grade := 0.0;
      maxGrade := 0.0;
    }

    /** The group's total in column `c`. */
    function Total(c: Column): real
      reads this
    {
      match c
      case Achieved => grade
      case Possible => maxGrade
    }

    method SetEffect(e: real)
      modifies this
      ensures effect == e
      ensures workList == old(workList) && grade == old(grade) && maxGrade == old(maxGrade)
    {
      effect := e;
    }

    method WorkAppend(d: Data)
      modifies this
      ensures workList == old(workList) + [d]
      ensures effect == old(effect) && grade == old(grade) && maxGrade == old(maxGrade)
    {
      workList := workList + [d];
    }

    /** Sums grade*weight and weight over the group's items with status >= 1.5. */
    method CalculateGrade()
      modifies this
      ensures grade == QualSum(workList, Achieved) && maxGrade == QualSum(workList, Possible)
      ensures workList == old(workList) && effect == old(effect)
    {
      grade := 0.0;
      maxGrade := 0.0;
      var i := 0;
      while i < |workList|
        invariant 0 <= i <= |workList|
        invariant workList == old(workList) && effect == old(effect)
        invariant grade == QualSum(workList[..i], Achieved)
        invariant maxGrade == QualSum(workList[..i], Possible)
      {
        var item := workList[i];
        assert workList[..i + 1][..i] == workList[..i];
        if item.status >= 1.5 {
          grade := grade + item.grade * item.weight;
          maxGrade := maxGrade + item.weight;
        }
        i := i + 1;
      }
      assert workList[..i] == workList;
    }
  }
}
