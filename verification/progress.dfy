/**
  The progress helper of the learner routes: how many of a course's lessons
  a user has completed, and the rounded percentage that decides whether a
  certificate is issued.
 */
module Progress {
  import opened Models
  import opened Invariants

  /** `Math.round(completed / total * 100)` for a course with lessons, 0 for
      one without. The division and rounding are taken exactly, with a half
      rounded up; the floating-point computation of the source agrees on
      every property proved here. */
  function Percentage(completed: nat, total: nat): (p: nat)
    ensures total == 0 ==> p == 0
    ensures completed == 0 ==> p == 0
    ensures completed <= total ==> p <= 100
    ensures 0 < total && completed == total ==> p == 100
  {
    if total > 0 then
      var p := (200 * completed + total) / (2 * total);
      PercentageFacts(completed, total);
      p
    else 0
  }

  lemma PercentageFacts(completed: nat, total: nat)
    requires 0 < total
    ensures completed == 0 ==> (200 * completed + total) / (2 * total) == 0
    ensures completed <= total ==> (200 * completed + total) / (2 * total) <= 100
    ensures completed == total ==> (200 * completed + total) / (2 * total) == 100
  {
    if completed == 0 {
      DivIs(total, 2 * total, 0);
    }
    if completed <= total {
      DivMonotone(200 * completed + total, 200 * total + total, 2 * total);
      DivIs(200 * total + total, 2 * total, 100);
    }
  }

  /** The quotient of a by d is the q with q * d <= a < q * d + d. */
  lemma DivIs(a: nat, d: nat, q: nat)
    requires 0 < d && q * d <= a < q * d + d
    ensures a / d == q
  {
    var k := a / d;
    assert k * d <= a < k * d + d;
    if k < q {
      MulMonotone(k + 1, q, d);
    }
    if k > q {
      MulMonotone(q + 1, k, d);
    }
  }

  lemma MulMonotone(x: nat, y: nat, d: nat)
    requires x <= y
    ensures x * d <= y * d
    ensures x * d + d == (x + 1) * d
  {
  }

  /** Division by a positive number is monotone in the dividend. */
  lemma DivMonotone(a: nat, b: nat, d: nat)
    requires 0 < d && a <= b
    ensures a / d <= b / d
  {
    var ka, kb := a / d, b / d;
    assert ka * d <= a && b < kb * d + d;
    if ka > kb {
      MulMonotone(kb + 1, ka, d);
    }
  }

  /** More completed lessons never give a smaller percentage. */
  lemma PercentageMonotone(c1: nat, c2: nat, total: nat)
    requires c1 <= c2
    ensures Percentage(c1, total) <= Percentage(c2, total)
  {
    if total > 0 {
      DivMonotone(200 * c1 + total, 200 * c2 + total, 2 * total);
    }
  }

  /** The rounding reaches 100 with a lesson still missing. */
  lemma NearlyCompleteRoundsUp()
    ensures Percentage(199, 200) == 100
  {
  }

  /** `course.lessons.filter(l => completed.includes(l))`: the course's
      lessons the user has completed, in course order. */
  function CompletedOf(lessons: seq<LessonId>, done: seq<LessonId>): (r: seq<LessonId>)
    ensures |r| <= |lessons|
    ensures forall l :: l in r <==> l in lessons && l in done
    ensures |r| == |lessons| <==> forall l :: l in lessons ==> l in done
    ensures NoDup(lessons) ==> NoDup(r)
  {
    if lessons == [] then []
    else
      var rest := CompletedOf(lessons[1..], done);
      assert forall l :: l in lessons <==> l == lessons[0] || l in lessons[1..];
      if lessons[0] in done then [lessons[0]] + rest else rest
  }

  lemma {:induction false} CompletedOfAppend(a: seq<LessonId>, b: seq<LessonId>, done: seq<LessonId>)
    ensures CompletedOf(a + b, done) == CompletedOf(a, done) + CompletedOf(b, done)
    decreases |a|
  {
    if a == [] {
      assert a + b == b;
    } else {
      assert (a + b)[1..] == a[1..] + b;
      CompletedOfAppend(a[1..], b, done);
    }
  }

  /** Completing more lessons never lowers the count. */
  lemma {:induction false} CompletedOfMonotone(lessons: seq<LessonId>, d1: seq<LessonId>, d2: seq<LessonId>)
    requires forall l :: l in d1 ==> l in d2
    ensures |CompletedOf(lessons, d1)| <= |CompletedOf(lessons, d2)|
    decreases |lessons|
  {
    if lessons != [] {
      CompletedOfMonotone(lessons[1..], d1, d2);
    }
  }

  /** Completing one more lesson of the course raises the count by one. */
  lemma {:induction false} CompletedOfAddOne(lessons: seq<LessonId>, done: seq<LessonId>, x: LessonId)
    requires NoDup(lessons) && x in lessons && x !in done
    ensures |CompletedOf(lessons, done + [x])| == |CompletedOf(lessons, done)| + 1
    decreases |lessons|
  {
    if lessons[0] == x {
      assert x !in lessons[1..];
      CompletedOfSame(lessons[1..], done, x);
    } else {
      assert x in lessons[1..];
      CompletedOfAddOne(lessons[1..], done, x);
    }
  }

  /** Completing a lesson outside the list leaves the count as it was. */
  lemma {:induction false} CompletedOfSame(lessons: seq<LessonId>, done: seq<LessonId>, x: LessonId)
    requires x !in lessons
    ensures CompletedOf(lessons, done + [x]) == CompletedOf(lessons, done)
    decreases |lessons|
  {
    if lessons != [] {
      assert lessons[0] != x;
      CompletedOfSame(lessons[1..], done, x);
    }
  }

  /** The number of positions of `lessons` that hold a completed lesson,
      counted independently of `CompletedOf`. */
  function DoneCount(lessons: seq<LessonId>, done: seq<LessonId>): nat {
    |set i | 0 <= i < |lessons| && lessons[i] in done|
  }

  lemma DoneCountSnoc(a: seq<LessonId>, x: LessonId, done: seq<LessonId>)
    ensures DoneCount(a + [x], done) == DoneCount(a, done) + (if x in done then 1 else 0)
  {
    var A := set i | 0 <= i < |a| && a[i] in done;
    var B := set i | 0 <= i < |a + [x]| && (a + [x])[i] in done;
    if x in done {
      assert B == A + {|a|};
      assert |a| !in A;
    } else {
      assert B == A;
    }
  }

  /** The filtered list has one element per completed position. */
  lemma {:induction false} CompletedOfCount(lessons: seq<LessonId>, done: seq<LessonId>)
    ensures |CompletedOf(lessons, done)| == DoneCount(lessons, done)
    decreases |lessons|
  {
    if lessons != [] {
      var a, x := lessons[..|lessons| - 1], lessons[|lessons| - 1];
      assert lessons == a + [x];
      CompletedOfAppend(a, [x], done);
      CompletedOfCount(a, done);
      DoneCountSnoc(a, x, done);
    }
  }

  datatype Report = Report(totalLessons: nat, completedLessons: nat, percentage: nat)

  /** `getProgress(userId, courseId)`: the number of lessons of the course,
      how many of them the user has completed, and the percentage. */
  function GetProgress(s: Store, user: UserId, course: CourseId): (r: Report)
    requires user in s.users && course in s.courses
    ensures r.totalLessons == |s.courses[course].lessons|
    ensures r.completedLessons == DoneCount(s.courses[course].lessons, s.users[user].completedLessons)
    ensures r.totalLessons > 0 ==>
              r.percentage == (200 * r.completedLessons + r.totalLessons) / (2 * r.totalLessons)
    ensures r.completedLessons <= r.totalLessons
    ensures r.percentage <= 100
    ensures r.totalLessons == 0 || r.completedLessons == 0 ==> r.percentage == 0
    ensures r.completedLessons == r.totalLessons <==>
              forall l :: l in s.courses[course].lessons ==> l in s.users[user].completedLessons
    ensures 0 < r.totalLessons && r.completedLessons == r.totalLessons ==> r.percentage == 100
  {
    var lessons := s.courses[course].lessons;
    var done := CompletedOf(lessons, s.users[user].completedLessons);
    CompletedOfCount(lessons, s.users[user].completedLessons);
    Report(|lessons|, |done|, Percentage(|done|, |lessons|))
  }
}
