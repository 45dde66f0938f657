/**
 * The course cards of the status tab (`renderStatus`): for each course with
 * schedules today, how many there are, how many have been dropped off
 * (降車済), how many are on board (乗車済), how many have not started, and
 * the progress bar's percentage.
 */
module AdminStatus {
  import opened Common
  import opened AdminData

  /** One card of the status list. */
  datatype CourseCard = CourseCard(
    courseName: string,
    total: nat,
    finished: nat,
    boarded: nat,
    notStarted: int,
    progress: int)

  /** `schedules.filter(s => s.courseId === c['コースID'])`. */
  function CourseSchedules(schedules: seq<Row>, c: Course): seq<Row>
  {
    Filter(schedules, (s: Row) => s.courseId == Some(c.id))
  }

  /** `rows.filter(s => s.status === st).length`. */
  function CountStatus(rows: seq<Row>, st: string): nat
  {
    Count(rows, (s: Row) => s.status == Some(st))
  }

  /** `Math.round((finished / total) * 100)` over exact rationals: half rounds up. */
  function RoundPercent(finished: nat, total: nat): nat
    requires total > 0
  {
    (200 * finished + total) / (2 * total)
  }

  /** The card of a course with schedules `rows`. */
  function Card(c: Course, rows: seq<Row>): (card: CourseCard)
    ensures card.finished <= card.total && card.boarded <= card.total
  {
    var total := |rows|;
    var finished := CountStatus(rows, Alighted);
    var boarded := CountStatus(rows, Boarded);
    var progress := if total > 0 then RoundPercent(finished, total) else 0;
    CourseCard(c.name, total, finished, boarded, total - finished - boarded, progress)
  }

  /** The cards of `renderStatus`, one per course that has schedules, in course order. */
  function StatusCards(courses: seq<Course>, schedules: seq<Row>): (cards: seq<CourseCard>)
    ensures |cards| <= |courses|
  {
    if courses == [] then []
    else
      var rows := CourseSchedules(schedules, courses[0]);
      (if rows == [] then [] else [Card(courses[0], rows)]) + StatusCards(courses[1..], schedules)
  }

  /** The courses that have schedules, in course order. */
  function CoursesWithSchedules(courses: seq<Course>, schedules: seq<Row>): seq<Course>
  {
    Filter(courses, (c: Course) => CourseSchedules(schedules, c) != [])
  }

  /** The card of each course of `cs`, in order. */
  function CardsOf(cs: seq<Course>, schedules: seq<Row>): (cards: seq<CourseCard>)
    ensures |cards| == |cs|
    ensures forall i :: 0 <= i < |cs| ==> cards[i] == Card(cs[i], CourseSchedules(schedules, cs[i]))
  {
    if cs == [] then [] else [Card(cs[0], CourseSchedules(schedules, cs[0]))] + CardsOf(cs[1..], schedules)
  }

  /** Filtering the courses splits off the first course exactly when it has schedules. */
  lemma CoursesWithSchedulesHead(courses: seq<Course>, schedules: seq<Row>)
    requires courses != []
    ensures CoursesWithSchedules(courses, schedules)
      == (if CourseSchedules(schedules, courses[0]) != [] then [courses[0]] else [])
         + CoursesWithSchedules(courses[1..], schedules)
  {
  }

  /**
   * The status list is one card per course with schedules, in course order,
   * each the card of that course's schedules.
   */
  lemma {:induction false} StatusCardsFollowCourses(courses: seq<Course>, schedules: seq<Row>)
    ensures StatusCards(courses, schedules) == CardsOf(CoursesWithSchedules(courses, schedules), schedules)
  {
    if courses != [] {
      StatusCardsFollowCourses(courses[1..], schedules);
      var c := courses[0];
      var rest := CoursesWithSchedules(courses[1..], schedules);
      CoursesWithSchedulesHead(courses, schedules);
      if CourseSchedules(schedules, c) != [] {
        assert ([c] + rest)[1..] == rest;
      }
    }
  }

  /** Every course with schedules gets its own card. */
  lemma StatusCardsComplete(courses: seq<Course>, schedules: seq<Row>, k: nat)
    requires k < |courses| && CourseSchedules(schedules, courses[k]) != []
    ensures Card(courses[k], CourseSchedules(schedules, courses[k])) in StatusCards(courses, schedules)
  {
    var cs := CoursesWithSchedules(courses, schedules);
    StatusCardsFollowCourses(courses, schedules);
    FilterMembership(courses, (c: Course) => CourseSchedules(schedules, c) != [], courses[k]);
    var j :| 0 <= j < |cs| && cs[j] == courses[k];
    assert CardsOf(cs, schedules)[j] == Card(courses[k], CourseSchedules(schedules, courses[k]));
  }

  /** A schedule is never both dropped off and on board, so the two counts fit in the total. */
  lemma {:induction false} StatusCountsFit(rows: seq<Row>)
    ensures CountStatus(rows, Alighted) + CountStatus(rows, Boarded) <= |rows|
  {
    if rows != [] {
      StatusCountsFit(rows[1..]);
    }
  }

  /** The rounding of `Math.round`: within half a percent of the exact ratio. */
  lemma RoundPercentBounds(finished: nat, total: nat)
    requires total > 0 && finished <= total
    ensures var p := RoundPercent(finished, total);
      && 0 <= p <= 100
      && 2 * total * p - total <= 200 * finished < 2 * total * p + total
      && (finished == total ==> p == 100)
      && (finished == 0 ==> p == 0)
  {
    var d := 2 * total;
    var p := RoundPercent(finished, total);
    DivBounds(200 * finished + total, d);
    if p > 100 {
      ScaleMono(d, 101, p);
    }
    if finished == total && p < 100 {
      ScaleMono(d, p, 99);
    }
    if finished == 0 && p > 0 {
      ScaleMono(d, 1, p);
    }
  }

  /** The quotient of a division by a positive number, bracketing the dividend. */
  lemma DivBounds(n: nat, d: nat)
    requires d > 0
    ensures d * (n / d) <= n < d * (n / d) + d
  {
  }

  /** Multiplying by a non-negative factor keeps an order. */
  lemma ScaleMono(d: nat, a: int, b: int)
    requires a <= b
    ensures d * a <= d * b
  {
    assert d * b - d * a == d * (b - a);
  }

  /**
   * Every card has a non-negative "not started" count and a progress within
   * 0..100 that rounds the share of finished schedules.
   */
  lemma CardBounds(c: Course, rows: seq<Row>)
    requires rows != []
    ensures var card := Card(c, rows);
      && card.total == |rows| > 0
      && card.finished + card.boarded <= card.total
      && card.notStarted >= 0
      && 0 <= card.progress <= 100
      && 2 * card.total * card.progress - card.total <= 200 * card.finished < 2 * card.total * card.progress + card.total
  {
    StatusCountsFit(rows);
    RoundPercentBounds(CountStatus(rows, Alighted), |rows|);
  }

  /**
   * Courses without schedules get no card: there is one card per course
   * with schedules, and none at all (the "no schedules" message) exactly
   * when no course has any.
   */
  lemma {:induction false} StatusCardsPerCourse(courses: seq<Course>, schedules: seq<Row>)
    ensures |StatusCards(courses, schedules)| == Count(courses, (c: Course) => CourseSchedules(schedules, c) != [])
    ensures StatusCards(courses, schedules) == []
      <==> forall i :: 0 <= i < |courses| ==> CourseSchedules(schedules, courses[i]) == []
  {
    if courses != [] {
      StatusCardsPerCourse(courses[1..], schedules);
      forall i | 0 <= i < |courses[1..]|
        ensures courses[1..][i] == courses[i + 1]
      {
      }
    }
  }

  /** Each card shown belongs to a course with schedules and satisfies the card bounds. */
  lemma {:induction false} StatusCardsBounded(courses: seq<Course>, schedules: seq<Row>, i: nat)
    requires i < |StatusCards(courses, schedules)|
    ensures exists k ::
      (0 <= k < |courses| && CourseSchedules(schedules, courses[k]) != []
       && StatusCards(courses, schedules)[i] == Card(courses[k], CourseSchedules(schedules, courses[k])))
    ensures var card := StatusCards(courses, schedules)[i];
      card.notStarted >= 0 && 0 <= card.progress <= 100
  {
    var rows := CourseSchedules(schedules, courses[0]);
    var head := if rows == [] then [] else [Card(courses[0], rows)];
    if i < |head| {
      CardBounds(courses[0], rows);
    } else {
      StatusCardsBounded(courses[1..], schedules, i - |head|);
      var k :| 0 <= k < |courses[1..]| && CourseSchedules(schedules, courses[1..][k]) != []
        && StatusCards(courses[1..], schedules)[i - |head|] == Card(courses[1..][k], CourseSchedules(schedules, courses[1..][k]));
      assert courses[1..][k] == courses[k + 1];
    }
  }
}
