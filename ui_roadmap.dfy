/**
 * The roadmap page's status rules: two lookup tables from a status string to
 * style classes, each with a gray default, and the label formatting that
 * replaces the first dash with a space and upper-cases the result.
 */
module Roadmap {

  const Completed: string := "completed"
  const InProgress: string := "in-progress"
  const Planned: string := "planned"

  /** The status of each roadmap period, in page order. */
  const PeriodStatuses: seq<string> := [Completed, InProgress, Planned, Planned, Planned, Planned]

  predicate Known(status: string)
  {
    status == Completed || status == InProgress || status == Planned
  }

  const GreenGradient: string := "from-green-400 to-emerald-400"
  const YellowGradient: string := "from-yellow-400 to-orange-400"
  const BlueGradient: string := "from-blue-400 to-cyan-400"
  const GrayGradient: string := "from-gray-400 to-gray-500"

  /** `getStatusColor`. */
  function StatusColor(status: string): (r: string)
    ensures status == Completed ==> r == GreenGradient
    ensures status == InProgress ==> r == YellowGradient
    ensures status == Planned ==> r == BlueGradient
    ensures !Known(status) ==> r == GrayGradient
  {
    if status == Completed then GreenGradient
    else if status == InProgress then YellowGradient
    else if status == Planned then BlueGradient
    else GrayGradient
  }

  const GreenBadge: string := "bg-green-500/20" + " text-green-400" + " border-green-500/30"
  const YellowBadge: string := "bg-yellow-500/20" + " text-yellow-400" + " border-yellow-500/30"
  const BlueBadge: string := "bg-blue-500/20" + " text-blue-400" + " border-blue-500/30"
  const GrayBadge: string := "bg-gray-500/20" + " text-gray-400" + " border-gray-500/30"

  /** `getStatusBadge`. */
  function StatusBadge(status: string): (r: string)
    ensures status == Completed ==> r == GreenBadge
    ensures status == InProgress ==> r == YellowBadge
    ensures status == Planned ==> r == BlueBadge
    ensures !Known(status) ==> r == GrayBadge
  {
    if status == Completed then GreenBadge
    else if status == InProgress then YellowBadge
    else if status == Planned then BlueBadge
    else GrayBadge
  }

  /** The four colours of each table are distinct, so the tables tell every
      known status apart from the others and from an unknown one. */
  lemma TablesSeparateStatuses(s: string, t: string)
    requires Known(s) || Known(t)
    requires s != t
    ensures StatusColor(s) != StatusColor(t)
    ensures StatusBadge(s) != StatusBadge(t)
  {
    assert GreenGradient[5] == 'g' && YellowGradient[5] == 'y' && BlueGradient[5] == 'b';
    assert GrayGradient[5] == 'g' && GrayGradient[7] == 'a' && GreenGradient[7] == 'e';
    assert GreenBadge[3] == 'g' && YellowBadge[3] == 'y' && BlueBadge[3] == 'b';
    assert GrayBadge[3] == 'g' && GrayBadge[5] == 'a' && GreenBadge[5] == 'e';
  }

  /** Every period of the page has a known status, so no period is drawn in
      the default gray. */
  lemma PeriodsUseKnownStatuses()
    ensures forall i :: 0 <= i < |PeriodStatuses| ==> Known(PeriodStatuses[i])
    ensures forall i :: 0 <= i < |PeriodStatuses| ==>
      StatusColor(PeriodStatuses[i]) != GrayGradient && StatusBadge(PeriodStatuses[i]) != GrayBadge
  {
    forall i | 0 <= i < |PeriodStatuses|
      ensures StatusColor(PeriodStatuses[i]) != GrayGradient && StatusBadge(PeriodStatuses[i]) != GrayBadge
    {
      TablesSeparateStatuses(PeriodStatuses[i], "");
    }
  }

  /** The index of the first `c` in `s`, or -1 when there is none. */
  function FirstIndex(s: string, c: char): (r: int)
    ensures -1 <= r < |s|
    ensures r == -1 <==> c !in s
    ensures r >= 0 ==> s[r] == c && c !in s[..r]
  {
    if s == [] then -1
    else if s[0] == c then 0
    else
      var k := FirstIndex(s[1..], c);
      if k == -1 then -1
      else
        assert s[..k + 1] == [s[0]] + s[1..][..k];
        k + 1
  }

  /** `s.replace(c, d)` with a one-character string pattern: only the first
      occurrence is replaced. */
  function ReplaceFirst(s: string, c: char, d: char): (r: string)
    ensures |r| == |s|
  {
    if s == [] then []
    else if s[0] == c then [d] + s[1..]
    else [s[0]] + ReplaceFirst(s[1..], c, d)
  }

  /** ReplaceFirst changes exactly the position of the first `c`, to `d`, and
      leaves a string without `c` as it is. */
  lemma {:induction false} ReplaceFirstSpec(s: string, c: char, d: char)
    ensures FirstIndex(s, c) == -1 ==> ReplaceFirst(s, c, d) == s
    ensures FirstIndex(s, c) >= 0 ==> ReplaceFirst(s, c, d) == s[FirstIndex(s, c) := d]
    decreases |s|
  {
    if s != [] && s[0] != c {
      ReplaceFirstSpec(s[1..], c, d);
      var k := FirstIndex(s[1..], c);
      if k >= 0 {
        assert [s[0]] + s[1..][k := d] == s[k + 1 := d];
      } else {
        assert [s[0]] + s[1..] == s;
      }
    }
  }

  /** `toUpperCase` on one character, for the ASCII letters that statuses use. */
  function UpperChar(ch: char): char
  {
    if 'a' <= ch <= 'z' then (ch as int - 32) as char else ch
  }

  function ToUpper(s: string): (r: string)
    ensures |r| == |s|
  {
    if s == [] then [] else [UpperChar(s[0])] + ToUpper(s[1..])
  }

  /** Upper-casing maps every character by UpperChar, so it keeps the length,
      leaves no ASCII lower-case letter, and is idempotent. */
  lemma {:induction false} ToUpperSpec(s: string)
    ensures |ToUpper(s)| == |s|
    ensures forall i :: 0 <= i < |s| ==> ToUpper(s)[i] == UpperChar(s[i])
    ensures forall i :: 0 <= i < |s| ==> !('a' <= ToUpper(s)[i] <= 'z')
    ensures ToUpper(ToUpper(s)) == ToUpper(s)
    decreases |s|
  {
    if s != [] {
      ToUpperSpec(s[1..]);
      assert ToUpper(s)[1..] == ToUpper(s[1..]);
    }
  }

  /** The label shown in the status badge. */
  function StatusLabel(status: string): (r: string)
    ensures |r| == |status|
    ensures forall i :: 0 <= i < |r| ==> !('a' <= r[i] <= 'z')
    ensures '-' !in status ==> r == ToUpper(status)
  {
    var spaced := ReplaceFirst(status, '-', ' ');
    ToUpperSpec(spaced);
    ReplaceFirstSpec(status, '-', ' ');
    ToUpper(spaced)
  }

  /** A string whose characters are the upper-case images of `s`'s is ToUpper(s). */
  lemma UpperIs(s: string, t: string)
    requires |s| == |t|
    requires forall i :: 0 <= i < |s| ==> UpperChar(s[i]) == t[i]
    ensures ToUpper(s) == t
  {
    ToUpperSpec(s);
  }

  /** The completed label. */
  lemma CompletedLabel()
    ensures StatusLabel(Completed) == "COMPLETED"
  {
    CompletedHasNoDash();
    ReplaceFirstSpec(Completed, '-', ' ');
    CompletedUpper();
  }

  lemma CompletedHasNoDash()
    ensures '-' !in Completed
  {
  }

  lemma CompletedUpper()
    ensures ToUpper(Completed) == "COMPLETED"
  {
    UpperIs(Completed, "COMPLETED");
  }

  /** The in-progress label: its one dash becomes a space. */
  lemma InProgressLabel()
    ensures StatusLabel(InProgress) == "IN PROGRESS"
  {
    InProgressSpaced();
    InProgressUpper();
  }

  lemma InProgressSpaced()
    ensures ReplaceFirst(InProgress, '-', ' ') == "in progress"
  {
    InProgressDash();
    ReplaceFirstSpec(InProgress, '-', ' ');
    InProgressRespelled();
  }

  lemma InProgressDash()
    ensures FirstIndex(InProgress, '-') == 2
  {
    assert InProgress[0] != '-' && InProgress[1] != '-' && InProgress[2] == '-';
  }

  lemma InProgressRespelled()
    ensures InProgress[2 := ' '] == "in progress"
  {
  }

  lemma InProgressUpper()
    ensures ToUpper("in progress") == "IN PROGRESS"
  {
    UpperIs("in progress", "IN PROGRESS");
  }

  /** The planned label. */
  lemma PlannedLabel()
    ensures StatusLabel(Planned) == "PLANNED"
  {
    PlannedHasNoDash();
    ReplaceFirstSpec(Planned, '-', ' ');
    PlannedUpper();
  }

  lemma PlannedHasNoDash()
    ensures '-' !in Planned
  {
  }

  lemma PlannedUpper()
    ensures ToUpper(Planned) == "PLANNED"
  {
    UpperIs(Planned, "PLANNED");
  }

  /** A status with two dashes keeps its second dash. */
  lemma SecondDashKept()
    ensures StatusLabel("a-b-c") == "A B-C"
  {
    assert ReplaceFirst("a-b-c", '-', ' ') == "a b-c";
    UpperIs("a b-c", "A B-C");
  }
}
