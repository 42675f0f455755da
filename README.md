# Grade calculator model

This project models `grade_data.py` in Dafny. The script reads a spreadsheet of graded school work, one row per
item: course, name, due date, status, grade and weight.

- Each row becomes a `Data` item of its course, a `Class`.
- An item whose status is at least 1.5 ("mark returned") adds weight × grade and weight to the course's running
  totals.
- For every course the script then reports:
  - the current grade, to the hundredth;
  - whether the course is done;
  - the average needed on the remaining weight to finish at 90 % (it aims at 89.5);
  - the grades if the rest scores 0 or 100;
  - the items that helped most and hurt most (the "MVP" and the "biggest L");
  - one group per type of work (`Work`), ranked by its effect on the grade in a doubly linked list;
  - range checks on statuses, grades and weights.

The modules follow the script's classes:

| module | file | models |
|---|---|---|
| `Rounding` | rounding.dfy | Python's `round(x, 2)`: nearest hundredth, halves to even, on exact reals. |
| `Records` | records.dfy | `Data` as a value; the split of the name column; `Data.find_errors`; the sums over counted items. |
| `Groups` | groups.dfy | `Work` as a class with `calculate_grade`. Also a specification of grouping (`OfType`, `TypeOrder`) and the proof that the groups partition the course totals. |
| `RankedList` | ranked_list.dfy | `WorkNode` and `LinkedList` as heap objects. `add` is proved to keep the list ordered highest effect first. |
| `Courses` | courses.dfy | `Class` as the class `Course`: its updates, statistics, grouping, ranking, MVP / biggest L and `find_errors`. |
| `Driver` | driver.dfy | The row loop that fills the course dictionary. The dictionary is a `map` plus the list of its keys in insertion order. |

Python dictionaries iterate in insertion order. Each one the script keeps is modelled as a map together with its
key order: `Course.nameToWork` with `Course.workOrder`, and the course dictionary with `order`. The column the
script calls `type` is named `kind`.

## Model

| member | source | states |
|---|---|---|
| Rounding.Round2Near | grade_data.py:240-241 | `round(x, 2)` is never more than half a hundredth from `x`. |
| Rounding.Round2ZeroIff | grade_data.py:231 | `round(x, 2) == 0` exactly when `-0.005 <= x <= 0.005`. |
| Rounding.Round2OneIff | grade_data.py:386 | `round(x, 2) == 1` exactly when `0.995 <= x <= 1.005`. |
| Rounding.Round2Monotone | grade_data.py:252-264 | Rounding to the hundredth never reverses an order. |
| Rounding.Round2Exact | grade_data.py:240-241 | Multiples of a hundredth are left unchanged. |
| Records.LastSpace | grade_data.py:398 | Finds the last space of the name, or reports that there is none. |
| Records.SplitName | grade_data.py:398-400 | The split is at the last space. The number part holds no space. A name without a space gives `Unnumbered` (the script's -1) and keeps the whole name as the type. |
| Records.SplitNameRoundTrip | grade_data.py:398-400 | Joining type and number with a space gives back the name column. |
| Records.ItemWarnings | grade_data.py:54-64 | Items with status -1 are not checked. Otherwise there is a status, grade or weight warning exactly when that field is out of range (a grade of -1 is allowed). |
| Records.DefinedStatusesAccepted | grade_data.py:58-60 | The five defined statuses -1, 0, 1, 1.5 and 2 never raise a status warning. |
| Records.ItemWarningsAsWritten | grade_data.py:54-64 | As written, an item with status not -1 and weight out of range aborts the check. It reports exactly the corrected warnings other than the weight warning, in the same order. The weight warning is reported in no case. When it aborts, the corrected warnings are the reported ones followed by the weight warning. |
| Records.AsWrittenAgreesInRange | grade_data.py:54-64 | When it does not abort, the as-written check reports exactly the corrected warnings. |
| Records.WeightOverOneAborts | grade_data.py:63-64 | A finished item with weight 1.5 aborts the as-written check; the corrected check reports a weight warning for it. |
| Records.QualSumConcat | grade_data.py:410-412 | The totals over the counted items add up across concatenation. |
| Records.QualSumBounds | grade_data.py:410-412 | With counted grades in 0..100 and non-negative weights: 0 <= achieved total <= 100 × possible total, and the possible total is >= 0. |
| Groups.OfType | grade_data.py:349-358 | A group holds only items of the course's data that have its type and a status other than -1. |
| Groups.OfTypeConcat | grade_data.py:354-358 | Grouping distributes over concatenation, so each group keeps the input order. |
| Groups.ItemInOwnGroup | grade_data.py:355-358 | An item is in the group of type `t` if and only if its status is not -1 and its type is `t`. |
| Groups.TypeOrder | grade_data.py:356-357 | The group keys are distinct. A type is a key if and only if its group is non-empty. |
| Groups.PartitionTotals | grade_data.py:349-358 | Summed over the groups in creation order, the group totals equal the course's totals over its counted items, for both grade and max grade. |
| Groups.Work.constructor | grade_data.py:68-87 | A new group has the given course and type, no items and effect 0. |
| Groups.Work.SetEffect | grade_data.py:89-93 | Sets the effect and nothing else. |
| Groups.Work.WorkAppend | grade_data.py:96-100 | Appends the item to the group's list and changes nothing else. |
| Groups.Work.CalculateGrade | grade_data.py:102-111 | The group's grade and max grade become the sums of grade × weight and of weight over its items with status >= 1.5. |
| RankedList.FirstBelow | grade_data.py:160-168 | The position the search stops at: every earlier effect is >= the new one, and the effect at that position is strictly smaller. |
| RankedList.FirstBelowUnique | grade_data.py:160-168 | That position is the only one with both properties. |
| RankedList.InsertKeepsOrder | grade_data.py:144-173 | Inserting at that position keeps the effects non-increasing from head to tail. |
| RankedList.WorkNode.constructor | grade_data.py:120-126 | A new node holds its group and has no links. |
| RankedList.LinkedList.constructor | grade_data.py:136-142 | A new list is empty, with head and tail null and size 0. |
| RankedList.LinkedList.Add | grade_data.py:144-173 | The node goes right before the first node whose effect is strictly smaller, so nodes of equal effect stay ahead of it. The same insertion shows in the sequences of nodes, groups and effects. The list stays ordered, size grows by one, the old nodes keep their order, and a node added to an empty list is both head and tail. |
| RankedList.LinkedList.Place | grade_data.py:148-172 | The four cases of `add` (empty list, new head, one node, search) link the node in at the insertion position. |
| RankedList.LinkedList.Search | grade_data.py:159-172 | The search loop places the node before the first smaller effect, or at the tail when there is none. |
| RankedList.LinkedList.LinkFront | grade_data.py:151-154 | The node becomes the new head, in front of the old nodes. |
| RankedList.LinkedList.LinkBack | grade_data.py:169-172 | The node becomes the new tail, after the old nodes. |
| RankedList.LinkedList.LinkBefore | grade_data.py:162-166 | The node is spliced in just before `cur`. |
| Courses.AllItemWarningsIff | grade_data.py:382-385 | Checking the items in order reports each item warning exactly for the items that raise it. |
| Courses.CourseWarningsIff | grade_data.py:377-387 | Each item warning is reported exactly when its condition holds. A course weight warning is reported exactly when the total weight of the items with status not -1 lies outside 0.995..1.005. |
| Courses.NeededReachesTarget | grade_data.py:244-249 | Scoring the needed average on the unmarked weight lands within rounding of 89.5, the wanted grade minus one half. |
| Courses.Course.constructor | grade_data.py:188-205 | A new course has the given name, zero totals, no items and no groups. |
| Courses.Course.UpdateGrade | grade_data.py:207-211 | Adds to the grade total and changes nothing else. |
| Courses.Course.UpdateMaxGrade | grade_data.py:214-218 | Adds to the max-grade total and changes nothing else. |
| Courses.Course.DataAppend | grade_data.py:267-271 | Appends the item and changes nothing else. |
| Courses.Course.IsCourseDone | grade_data.py:227-233 | The course is done exactly when the marked weight lies in 0.995..1.005. |
| Courses.Course.CurrentGrade | grade_data.py:235-241 | Returns 0 when nothing is marked. Otherwise it is within half a hundredth of grade / max grade. |
| Courses.Course.NeededGrade | grade_data.py:244-249 | The needed average, which brings the final grade to within rounding of 89.5. |
| Courses.Course.GradeIfDidNothing | grade_data.py:252-256 | Within half a hundredth of the grade total. |
| Courses.Course.GradeIfYouAce | grade_data.py:259-264 | Within half a hundredth of grade + 100 × (1 - max grade). |
| Courses.Course.AceNotBelowNothing | grade_data.py:252-264 | While max grade <= 1, acing the rest never gives less than doing nothing. |
| Courses.Course.CurrentGradeIsPercentage | grade_data.py:235-241 | When the totals are the sums over the counted items, with their grades in 0..100 and non-negative weights, the current grade lies in 0..100. |
| Courses.Course.HalfMarkedExample | grade_data.py:227-249 | A course with quiz 80 (weight 0.2) and midterm 90 (weight 0.3) marked and the final unmarked is at 86 %, is not done and needs 93 %. |
| Courses.Course.Report | grade_data.py:419-433 | A course is finished exactly when it is done, and then shows its current grade. Otherwise it shows the current grade, the needed grade, the do-nothing grade and the ace grade. The needed grade's denominator is then more than 0.005 from zero. While max grade <= 1, the do-nothing grade is at most the ace grade. |
| Courses.Course.MakeSubGroups | grade_data.py:349-358 | When there are no groups yet, it builds them from the current items: one group per type in order of first appearance, each holding the items of that type with status not -1 in input order, with effect 0. Otherwise it changes nothing, so a second call is idempotent and groups that were current stay current. |
| Courses.Course.BuildGroups | grade_data.py:354-358 | The grouping loop yields the groups of all items, every one fresh and with effect 0. |
| Courses.Course.GroupStep | grade_data.py:355-358 | One turn of the grouping loop turns the groups of the items seen so far into those of one more item; every group still has effect 0. |
| Courses.Course.Enter | grade_data.py:356-358 | The item joins the group of its type, which is created, fresh and last in order, on first sight, with effect 0. The other groups are unchanged, and no existing group's effect changes. |
| Courses.Course.AverageOfGroups | grade_data.py:361-374 | Groups the items once. A dictionary that is already built keeps its keys, its order and each group's items, so groups that were current stay current. Each group's totals become the sums over its own items. When its max grade is not 0, its effect is set against the current grade; other groups keep the effect they had: the one from before the call on a dictionary that was already built, 0 on one built by this call. The ranking holds each group with marked weight in exactly one node, so it has as many nodes as groups. It holds no other group. Effects do not increase from head to tail, and groups of equal effect come in dictionary order. On current groups, the group totals add up to the course totals. |
| Courses.Course.GroupSumsMatchCourse | grade_data.py:367-368 | Current, summed groups add up to the course's grade and max grade. |
| Courses.Course.RankGroups | grade_data.py:366-373 | The ranking loop: every group is summed. When its max grade is not 0, its effect is set against the current grade; other groups keep theirs. Exactly the groups with max grade != 0 are in the ordered list, each in one node. Groups of equal effect come in dictionary order, because `add` places a node after the nodes of equal effect and the groups are added in dictionary order. |
| Courses.Course.RankLoop | grade_data.py:366-373 | The same loop stated by dictionary position: every group is summed, exactly the groups with max grade != 0 are ranked, and a group with max grade 0 ends with the effect it had before the loop. |
| Courses.Course.RankTurn | grade_data.py:367-373 | The turn at position `i` takes the group the dictionary holds there and moves the loop's progress from `i` to `i + 1`; the ranked set grows by at most that group. |
| Courses.Course.RankStep | grade_data.py:367-373 | One turn of the ranking loop sums the group. When its max grade is not 0, it also inserts the group at its `FirstBelow` position in the ranking; otherwise the list is unchanged. The loop's progress moves past the group: the groups up to it are summed and ranked exactly when marked, each once, with ties in dictionary order. An unmarked group keeps its effect. The groups after it stay unranked, with their effects untouched. |
| Courses.Course.RankMarked | grade_data.py:369-373 | Ranking a summed group with marked weight inserts it at its `FirstBelow` position. No group's totals, effect or items change, so the loop's progress is kept. |
| Courses.Course.RankInOrder | grade_data.py:373 | Adding a group to a ranking that holds only groups from earlier in the dictionary keeps one node per group and keeps ties in dictionary order. |
| Courses.Course.SumGroup | grade_data.py:368-372 | The group's totals become the sums over its items. When its max grade is not 0, its effect becomes `round(grade - max_grade × current, 2)`; otherwise the effect is left as it was. |
| Courses.Course.Rank | grade_data.py:373 | Exactly one new node, holding the group, is inserted. In the sequence of groups and in the sequence of effects it goes at the `FirstBelow` position of the group's effect among the old effects. |
| Courses.TiesAfterInsert | grade_data.py:160-168 | Inserting the next group of the dictionary at its `FirstBelow` position keeps groups of equal effect in dictionary order. |
| Courses.RankingUnique | grade_data.py:366-373 | Two rankings of the same groups are the same sequence when each holds every group once, has non-increasing effects and has ties in dictionary order. So the list `AverageOfGroups` builds is the stable ordering of the marked groups by effect. |
| Courses.Course.Mvp | grade_data.py:308-326 | Returns "no contest" exactly when no item has status >= 1.5. Otherwise it returns a counted item with the highest effect, the first one on ties. |
| Courses.Course.BiggestL | grade_data.py:328-346 | Returns "no contest" exactly when no item has status >= 1.5. Otherwise it returns a counted item with the lowest effect, the first one on ties. |
| Courses.Course.FindErrors | grade_data.py:377-387 | The loop reports the corrected item warnings (the `Records.ItemWarnings` row under "Findings") in order, then the course weight warning. The properties of this result are stated by CourseWarningsIff. |
| Driver.ToData | grade_data.py:398-404 | The item copies the row's fields, and its type and number join back to the name column. The number is -1 exactly when the name has no space. Otherwise the number holds no space, so the split is at the last space. |
| Driver.RowsOf | grade_data.py:394-413 | The items filed under a course all carry that course. |
| Driver.CourseOrder | grade_data.py:408-409 | The dictionary's course order has no duplicates and names exactly the courses that have rows. |
| Driver.EveryRowFiled | grade_data.py:394-413 | No row is lost or filed twice: the courses together hold exactly one item per row. |
| Driver.AddRow | grade_data.py:408-413 | Creates the row's course on first sight, last in order, and files the row under it. The other courses are untouched. |
| Driver.Record | grade_data.py:410-413 | A row with status >= 1.5 adds weight × grade and weight to the totals; any other row leaves them unchanged. The item is appended either way. |
| Driver.Load | grade_data.py:390-413 | After all rows: courses appear in first-row order. Each course holds its rows in input order, has no groups yet, and has totals equal to the sums over its rows with status >= 1.5. |
| Driver.LoadStep | grade_data.py:394-413 | One turn of the row loop takes the dictionary of the rows read so far to that of one more row. |

## Left out

- Reading the file, skipping its header line, splitting lines on commas and parsing floats are left out. `Driver.Row` is a row already split and parsed.
- Printing is left out, and the model returns the values the script prints:
  - `Class.find_errors` and `Data.find_errors` return a list of `Warning`s;
  - `MVP` and `biggest_L` return the index of the chosen item;
  - `average_of_groups` returns the ranked list, and `LinkedList.print_all` is not modelled;
  - `Course.Report` models only the summary values one course shows (lines 419-433). The loop over the courses is not modelled. Nor are the calls the loop makes to `MVP`, `biggest_L` and `average_of_groups` for a finished course (lines 422-425) or to `find_errors` and `print_unmarked_work` (lines 437-438). Those operations are modelled on their own as `Mvp`, `BiggestL`, `AverageOfGroups` and `FindErrors`.
- The `print_*` methods, the `__str__` methods and the `EXTRA_DATA` switch are left out. They only format text.
- Floating point is left out. Amounts are exact reals, and `round(x, 2)` is round-half-to-even on the exact value, so binary representation effects are not modelled.
- Courses.Course.NeededGrade: it requires `max_grade != 1`, where Python would raise ZeroDivisionError. The script calls it only for a course that is not done, and `Report` shows that this keeps the denominator away from zero.
- A `Work` group starts with grade and max grade 0. Python leaves them unset until `calculate_grade` runs, and every use in the script comes after that call.
- Courses.Course.MakeSubGroups: it tests whether the key order is empty rather than whether the dictionary is. The two agree under `Course.Valid`.
- The number part of a name is kept as text, as the script does. Python's integer -1 for "no number" is `Unnumbered`.
- Courses.Course.RankGroups: it reads the current grade once, while the script calls `get_current_grade` once per group. The loop changes no course field, so the value is the same.
- Courses.Course.FindErrors: the course weight warning carries the exact total. The script prints it rounded to four places.
- Courses.Course.FindErrors: it uses the corrected item check from "## Findings". As written, line 64 raises TypeError at the first item with status not -1 and an out-of-range weight. Nothing catches that error, so the whole run ends there. The rest of that course's check is lost: its later items and its course weight warning (lines 386-387). So is `print_unmarked_work` for that course (line 438), and so is the report of every later course (lines 417-442). `Records.ItemWarningsAsWritten` models that abort for one item. The course-level loop is modelled only in its corrected form.
- The documentation and the code differ in places, and the model follows the code:
  - Statuses: the code checks only `status < 0 or status > 2`, so any status in between is accepted, not just the five defined ones.
  - A course is "done" when `round(1 - max_grade, 2) == 0`, which means within 0.005, not 0.01.
  - Groups are built once: `make_sub_groups` does nothing when the dictionary is not empty. They are not rebuilt when the grade changes.

## Findings

| source | as written | input that shows it | evidently intended | confidence | as-written member | corrected member |
|---|---|---|---|---|---|---|
| grade_data.py:63-64 | The weight message formats `round(self, 2)` of the `Data` object itself. That raises TypeError, so the check stops at the first item with an out-of-range weight and reports no weight warning. | a finished item with weight 1.5 (status 2, grade 80) | print a weight warning for the item and continue | high, not executed | Records.WeightOverOneAborts | Records.ItemWarnings |
