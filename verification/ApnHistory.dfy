/**
 The one pass of `build_scope` (tools/solis_orange_county_scope.py) that turns dated
 fragments into numbered states and the transitions between neighbours, parcel by parcel.
 */
module ApnHistory {
  import opened Common
  import opened Ordering
  import IsoDates

  datatype Fragment = Fragment(apn: string, eventDate: string, fragmentId: string, docNum: string, mapNum: string)

  /** State number `sequence` of a parcel; its id is a function of the two. */
  datatype State = State(apn: string, sequence: nat, fragment: Fragment)

  datatype Transition = Transition(apn: string, fromSequence: nat, toSequence: nat, days: Option<int>, docNum: string,
      mapNum: string)

  /** The day a date text stands for, counted from some origin; None when it does not parse. */
  type Calendar = string -> Option<int>

  function DaysBetween(day: Calendar, earlier: string, later: string): Option<int> {
    if day(earlier).Some? && day(later).Some? then Some(day(later).value - day(earlier).value) else None
  }

  // ----- parcel by parcel

  function FragmentsOf(rows: seq<Fragment>, apn: string): seq<Fragment> {
    if rows == [] then []
    else
      var n := |rows| - 1;
      if rows[n].apn == apn then FragmentsOf(rows[..n], apn) + [rows[n]] else FragmentsOf(rows[..n], apn)
  }

  function StatesOf(states: seq<State>, apn: string): seq<State> {
    if states == [] then []
    else
      var n := |states| - 1;
      if states[n].apn == apn then StatesOf(states[..n], apn) + [states[n]] else StatesOf(states[..n], apn)
  }

  function TransitionsOf(transitions: seq<Transition>, apn: string): seq<Transition> {
    if transitions == [] then []
    else
      var n := |transitions| - 1;
      if transitions[n].apn == apn then TransitionsOf(transitions[..n], apn) + [transitions[n]]
      else TransitionsOf(transitions[..n], apn)
  }

  /** k fragments are states 1..k. */
  function Numbered(fragments: seq<Fragment>): seq<State> {
    seq(|fragments|, i requires 0 <= i < |fragments| => State(fragments[i].apn, i + 1, fragments[i]))
  }

  /** The transition into fragment i from the one before it. */
  function Into(day: Calendar, fragments: seq<Fragment>, i: nat): Transition
    requires 0 < i < |fragments|
  {
    Transition(fragments[i].apn, i, i + 1, DaysBetween(day, fragments[i - 1].eventDate, fragments[i].eventDate),
        fragments[i].docNum, fragments[i].mapNum)
  }

  /** k fragments have k - 1 transitions, each joining neighbours. */
  function Joined(day: Calendar, fragments: seq<Fragment>): seq<Transition> {
    var n := if fragments == [] then 0 else |fragments| - 1;
    seq(n, i requires 0 <= i < n => Into(day, fragments, i + 1))
  }

  lemma FragmentsSnoc(rows: seq<Fragment>, i: nat, apn: string)
    requires i < |rows|
    ensures FragmentsOf(rows[..i + 1], apn) ==
      if rows[i].apn == apn then FragmentsOf(rows[..i], apn) + [rows[i]] else FragmentsOf(rows[..i], apn)
  {
    assert rows[..i + 1][..i] == rows[..i];
  }

  lemma JoinedSnoc(day: Calendar, fragments: seq<Fragment>, f: Fragment)
    ensures Joined(day, fragments + [f]) ==
      if fragments == [] then [] else Joined(day, fragments) + [Into(day, fragments + [f], |fragments|)]
  {
    var more := fragments + [f];
    forall i | 0 < i < |fragments| ensures Into(day, more, i) == Into(day, fragments, i) {
      assert more[i] == fragments[i] && more[i - 1] == fragments[i - 1];
    }
  }

  // ----- the pass

  /** What `sequence_by_apn` and `last_for_apn` remember of the rows so far. */
  ghost predicate Remembers(sequences: map<string, nat>, last: map<string, (nat, string)>, rows: seq<Fragment>) {
    && sequences.Keys == last.Keys
    && forall apn :: RemembersOne(sequences, last, FragmentsOf(rows, apn), apn)
  }

  ghost predicate RemembersOne(sequences: map<string, nat>, last: map<string, (nat, string)>,
                               fragments: seq<Fragment>, apn: string) {
    && (apn in sequences <==> fragments != [])
    && (apn in sequences ==> sequences[apn] == |fragments|)
    && (apn in last ==> apn in sequences && last[apn] == (|fragments|, fragments[|fragments| - 1].eventDate))
  }

  ghost predicate BuiltSoFar(day: Calendar, rows: seq<Fragment>, states: seq<State>, transitions: seq<Transition>) {
    forall apn :: BuiltFor(day, FragmentsOf(rows, apn), StatesOf(states, apn), TransitionsOf(transitions, apn))
  }

  ghost predicate BuiltFor(day: Calendar, fragments: seq<Fragment>, states: seq<State>, transitions: seq<Transition>) {
    states == Numbered(fragments) && transitions == Joined(day, fragments)
  }

  /** Every parcel, however the rows of different parcels are interleaved, gets its own states and transitions. */
  method Build(day: Calendar, rows: seq<Fragment>) returns (states: seq<State>, transitions: seq<Transition>)
    ensures BuiltSoFar(day, rows, states, transitions)
    ensures |states| == |rows|
  {
    states, transitions := [], [];
    var sequences: map<string, nat>, last: map<string, (nat, string)> := map[], map[];
    for i := 0 to |rows|
      invariant |states| == i
      invariant Remembers(sequences, last, rows[..i])
      invariant BuiltSoFar(day, rows[..i], states, transitions)
    {
      var row := rows[i];
      assert RemembersOne(sequences, last, FragmentsOf(rows[..i], row.apn), row.apn);
      var sequence := if row.apn in sequences then sequences[row.apn] + 1 else 1;
      ghost var oldStates, oldTransitions := states, transitions;
      states := states + [State(row.apn, sequence, row)];
      if row.apn in last {
        var (previous, previousDate) := last[row.apn];
        var t := Transition(row.apn, previous, sequence, DaysBetween(day, previousDate, row.eventDate), row.docNum,
            row.mapNum);
        transitions := transitions + [t];
      }
      StepBuilds(day, rows, i, sequences, last, oldStates, oldTransitions, states, transitions);
      StepRemembers(rows, i, sequences, last);
      sequences := sequences[row.apn := sequence];
      last := last[row.apn := (sequence, row.eventDate)];
    }
    assert rows[..|rows|] == rows;
  }

  lemma StepRemembers(rows: seq<Fragment>, i: nat, sequences: map<string, nat>, last: map<string, (nat, string)>)
    requires i < |rows| && Remembers(sequences, last, rows[..i])
    ensures var apn := rows[i].apn;
      var sequence := if apn in sequences then sequences[apn] + 1 else 1;
      Remembers(sequences[apn := sequence], last[apn := (sequence, rows[i].eventDate)], rows[..i + 1])
  {
    var apn := rows[i].apn;
    var sequence := if apn in sequences then sequences[apn] + 1 else 1;
    var nextSequences, nextLast := sequences[apn := sequence], last[apn := (sequence, rows[i].eventDate)];
    var nextRows := rows[..i + 1];
    forall other ensures RemembersOne(nextSequences, nextLast, FragmentsOf(nextRows, other), other) {
      assert RemembersOne(sequences, last, FragmentsOf(rows[..i], other), other);
      FragmentsSnoc(rows, i, other);
    }
  }

  lemma StepBuilds(day: Calendar, rows: seq<Fragment>, i: nat,
                   sequences: map<string, nat>, last: map<string, (nat, string)>,
                   states: seq<State>, transitions: seq<Transition>,
                   nextStates: seq<State>, nextTransitions: seq<Transition>)
    requires i < |rows| && Remembers(sequences, last, rows[..i]) && BuiltSoFar(day, rows[..i], states, transitions)
    requires var row := rows[i];
      var sequence := if row.apn in sequences then sequences[row.apn] + 1 else 1;
      && nextStates == states + [State(row.apn, sequence, row)]
      && nextTransitions == if row.apn in last
        then transitions + [Transition(row.apn, last[row.apn].0, sequence,
            DaysBetween(day, last[row.apn].1, row.eventDate), row.docNum, row.mapNum)]
        else transitions
    ensures BuiltSoFar(day, rows[..i + 1], nextStates, nextTransitions)
  {
    var row := rows[i];
    var nextRows := rows[..i + 1];
    forall apn
      ensures BuiltFor(day, FragmentsOf(nextRows, apn), StatesOf(nextStates, apn), TransitionsOf(nextTransitions, apn))
    {
      var before := FragmentsOf(rows[..i], apn);
      assert RemembersOne(sequences, last, before, apn);
      assert BuiltFor(day, before, StatesOf(states, apn), TransitionsOf(transitions, apn));
      FragmentsSnoc(rows, i, apn);
      if row.apn == apn { BuiltNext(day, sequences, last, before, row); }
    }
  }

  /** The new state and transition of a parcel continue what its fragments so far gave. */
  lemma BuiltNext(day: Calendar, sequences: map<string, nat>, last: map<string, (nat, string)>, before: seq<Fragment>,
                  row: Fragment)
    requires RemembersOne(sequences, last, before, row.apn) && sequences.Keys == last.Keys
    ensures var sequence := if row.apn in sequences then sequences[row.apn] + 1 else 1;
      && Numbered(before + [row]) == Numbered(before) + [State(row.apn, sequence, row)]
      && Joined(day, before + [row]) == if row.apn in last
        then Joined(day, before) + [Transition(row.apn, last[row.apn].0, sequence,
            DaysBetween(day, last[row.apn].1, row.eventDate), row.docNum, row.mapNum)]
        else Joined(day, before)
  {
    JoinedSnoc(day, before, row);
    if before != [] {
      assert (before + [row])[|before| - 1] == before[|before| - 1];
    }
  }

  // ----- the days

  function Total(transitions: seq<Transition>): int
    requires forall i :: 0 <= i < |transitions| ==> transitions[i].days.Some?
  {
    if transitions == [] then 0 else Total(transitions[..|transitions| - 1]) + transitions[|transitions| - 1].days.value
  }

  lemma TotalSnoc(transitions: seq<Transition>, last: Transition)
    requires (forall i :: 0 <= i < |transitions| ==> transitions[i].days.Some?) && last.days.Some?
    ensures Total(transitions + [last]) == Total(transitions) + last.days.value
  {
    assert (transitions + [last])[..|transitions|] == transitions;
  }

  lemma DaysStep(day: Calendar, before: seq<Fragment>, f: Fragment)
    requires before != [] && day(before[|before| - 1].eventDate).Some? && day(f.eventDate).Some?
    requires forall i :: 0 <= i < |Joined(day, before)| ==> Joined(day, before)[i].days.Some?
    ensures var more := Joined(day, before + [f]);
      && (forall i :: 0 <= i < |more| ==> more[i].days.Some?)
      && Total(more) ==
           Total(Joined(day, before)) + day(f.eventDate).value - day(before[|before| - 1].eventDate).value
  {
    var into := Into(day, before + [f], |before|);
    JoinedSnoc(day, before, f);
    assert (before + [f])[|before| - 1] == before[|before| - 1];
    TotalSnoc(Joined(day, before), into);
  }

  /** All dates parse: the days of a parcel's transitions add up to the time from its first fragment to its last. */
  lemma {:induction false} DaysTelescope(day: Calendar, fragments: seq<Fragment>)
    requires fragments != [] && forall i :: 0 <= i < |fragments| ==> day(fragments[i].eventDate).Some?
    ensures forall i :: 0 <= i < |Joined(day, fragments)| ==> Joined(day, fragments)[i].days.Some?
    ensures Total(Joined(day, fragments)) ==
      day(fragments[|fragments| - 1].eventDate).value - day(fragments[0].eventDate).value
    decreases |fragments|
  {
    var n := |fragments| - 1;
    if n > 0 {
      DaysTelescope(day, fragments[..n]);
      DaysStep(day, fragments[..n], fragments[n]);
      assert fragments == fragments[..n] + [fragments[n]];
    }
  }

  // ----- the order of the query

  /** `ORDER BY apn_norm, event_date`, as far as the pass depends on it. */
  predicate QueryOrder(a: Fragment, b: Fragment) {
    if a.apn != b.apn then Le(a.apn, b.apn) else Le(a.eventDate, b.eventDate)
  }

  ghost predicate InQueryOrder(rows: seq<Fragment>) {
    forall i, j :: 0 <= i < j < |rows| ==> QueryOrder(rows[i], rows[j])
  }

  lemma {:induction false} FragmentsOfMembers(rows: seq<Fragment>, apn: string)
    ensures forall f :: f in FragmentsOf(rows, apn) <==> f in rows && f.apn == apn
    decreases |rows|
  {
    if rows != [] {
      var n := |rows| - 1;
      FragmentsOfMembers(rows[..n], apn);
      assert rows == rows[..n] + [rows[n]];
    }
  }

  predicate DatesInOrder(f: seq<Fragment>, i: nat, j: nat)
    requires i < |f| && j < |f|
  {
    Le(f[i].eventDate, f[j].eventDate)
  }

  ghost predicate DatesRise(f: seq<Fragment>) {
    forall i, j :: 0 <= i < j < |f| ==> DatesInOrder(f, i, j)
  }

  lemma DatesRiseSnoc(f: seq<Fragment>, last: Fragment)
    requires DatesRise(f) && forall x :: x in f ==> Le(x.eventDate, last.eventDate)
    ensures DatesRise(f + [last])
  {
    var more := f + [last];
    forall i, j | 0 <= i < j < |more| ensures DatesInOrder(more, i, j) {
      assert more[i] == f[i] && f[i] in f;
      if j < |f| { assert DatesInOrder(f, i, j); }
    }
  }

  /** A parcel's fragments are in the order of their date texts. */
  lemma {:induction false} FragmentsInDateOrder(rows: seq<Fragment>, apn: string)
    requires InQueryOrder(rows)
    ensures DatesRise(FragmentsOf(rows, apn))
    decreases |rows|
  {
    if rows != [] {
      var n := |rows| - 1;
      FragmentsInDateOrder(rows[..n], apn);
      FragmentsOfMembers(rows[..n], apn);
      if rows[n].apn == apn {
        forall f | f in FragmentsOf(rows[..n], apn) ensures Le(f.eventDate, rows[n].eventDate) {
          var i :| 0 <= i < n && rows[..n][i] == f;
          assert QueryOrder(rows[i], rows[n]);
        }
        DatesRiseSnoc(FragmentsOf(rows[..n], apn), rows[n]);
      }
    }
  }

  lemma {:induction false} EachIsOfItsParcel(transitions: seq<Transition>, t: Transition)
    requires t in transitions
    ensures t in TransitionsOf(transitions, t.apn)
    decreases |transitions|
  {
    var n := |transitions| - 1;
    if t != transitions[n] {
      EachIsOfItsParcel(transitions[..n], t);
    }
  }

  /** Every date text is one the importer stores, `YYYY-MM-DD`. */
  ghost predicate Stored(rows: seq<Fragment>) {
    forall f :: f in rows ==> exists d :: IsoDates.Valid(d) && f.eventDate == IsoDates.Iso(d)
  }

  /**
   On the rows as the query delivers them no transition between two dates has negative days, even where texts that
   are no dates stand in the date column; and on the texts the importer stores every transition has days.
   */
  lemma NoNegativeDays(rows: seq<Fragment>, states: seq<State>, transitions: seq<Transition>)
    requires InQueryOrder(rows) && BuiltSoFar(IsoDates.DayOf, rows, states, transitions)
    ensures forall t :: t in transitions && t.days.Some? ==> t.days.value >= 0
    ensures Stored(rows) ==> forall t :: t in transitions ==> t.days.Some?
  {
    forall t | t in transitions
      ensures t.days.Some? ==> t.days.value >= 0
      ensures Stored(rows) ==> t.days.Some?
    {
      TransitionDays(rows, states, transitions, t);
    }
  }

  /** Every transition built joins two neighbouring fragments of its parcel. */
  lemma FindJoined(day: Calendar, rows: seq<Fragment>, states: seq<State>, transitions: seq<Transition>, t: Transition)
    returns (i: nat)
    requires BuiltSoFar(day, rows, states, transitions) && t in transitions
    ensures var f := FragmentsOf(rows, t.apn); i + 1 < |f| && t == Into(day, f, i + 1)
  {
    var f := FragmentsOf(rows, t.apn);
    assert BuiltFor(day, f, StatesOf(states, t.apn), TransitionsOf(transitions, t.apn));
    EachIsOfItsParcel(transitions, t);
    i :| 0 <= i < |Joined(day, f)| && Joined(day, f)[i] == t;
  }

  lemma TransitionDays(rows: seq<Fragment>, states: seq<State>, transitions: seq<Transition>, t: Transition)
    requires InQueryOrder(rows) && BuiltSoFar(IsoDates.DayOf, rows, states, transitions) && t in transitions
    ensures t.days.Some? ==> t.days.value >= 0
    ensures Stored(rows) ==> t.days.Some?
  {
    var f := FragmentsOf(rows, t.apn);
    var i := FindJoined(IsoDates.DayOf, rows, states, transitions, t);
    FragmentsInDateOrder(rows, t.apn);
    FragmentsOfMembers(rows, t.apn);
    assert DatesInOrder(f, i, i + 1);
    NeighbourDays(rows, f[i], f[i + 1]);
  }

  lemma NeighbourDays(rows: seq<Fragment>, earlier: Fragment, later: Fragment)
    requires earlier in rows && later in rows && Le(earlier.eventDate, later.eventDate)
    ensures var days := DaysBetween(IsoDates.DayOf, earlier.eventDate, later.eventDate);
      (days.Some? ==> days.value >= 0) && (Stored(rows) ==> days.Some?)
  {
    var s, t := earlier.eventDate, later.eventDate;
    if IsoDates.DayOf(s).Some? && IsoDates.DayOf(t).Some? {
      IsoDates.TextOrderIsDayOrder(s, t);
    }
    if Stored(rows) {
      StoredParses(rows, earlier);
      StoredParses(rows, later);
    }
  }

  lemma StoredParses(rows: seq<Fragment>, f: Fragment)
    requires Stored(rows) && f in rows
    ensures IsoDates.DayOf(f.eventDate).Some?
  {
    var d :| IsoDates.Valid(d) && f.eventDate == IsoDates.Iso(d);
    IsoDates.ReadsWhatIsWritten(d);
  }

  /**
   A parcel's i-th transition leads from its i-th state to the one behind it, by their numbers; it carries the document
   and map numbers of the later fragment, and the days from the earlier date to the later.
   */
  lemma TransitionJoinsStates(day: Calendar, rows: seq<Fragment>, states: seq<State>, transitions: seq<Transition>,
                              apn: string, i: nat)
    requires BuiltSoFar(day, rows, states, transitions) && i < |TransitionsOf(transitions, apn)|
    ensures var of, t := StatesOf(states, apn), TransitionsOf(transitions, apn)[i];
      && |of| == |FragmentsOf(rows, apn)| == |TransitionsOf(transitions, apn)| + 1
      && of[i].fragment == FragmentsOf(rows, apn)[i] && of[i + 1].fragment == FragmentsOf(rows, apn)[i + 1]
      && t.apn == of[i].apn == of[i + 1].apn == apn
      && t.fromSequence == of[i].sequence == i + 1 && t.toSequence == of[i + 1].sequence == i + 2
      && t.docNum == of[i + 1].fragment.docNum && t.mapNum == of[i + 1].fragment.mapNum
      && var from, into := day(of[i].fragment.eventDate), day(of[i + 1].fragment.eventDate);
         t.days == if from.Some? && into.Some? then Some(into.value - from.value) else None
  {
    var fragments := FragmentsOf(rows, apn);
    assert BuiltFor(day, fragments, StatesOf(states, apn), TransitionsOf(transitions, apn));
    NeighboursJoined(day, fragments, i);
    FragmentsOfMembers(rows, apn);
    assert fragments[i] in fragments && fragments[i + 1] in fragments;
  }

  lemma NeighboursJoined(day: Calendar, fragments: seq<Fragment>, i: nat)
    requires i < |Joined(day, fragments)|
    ensures i + 1 < |fragments| == |Numbered(fragments)| == |Joined(day, fragments)| + 1
    ensures Numbered(fragments)[i] == State(fragments[i].apn, i + 1, fragments[i])
    ensures Numbered(fragments)[i + 1] == State(fragments[i + 1].apn, i + 2, fragments[i + 1])
    ensures Joined(day, fragments)[i] == Transition(fragments[i + 1].apn, i + 1, i + 2,
      DaysBetween(day, fragments[i].eventDate, fragments[i + 1].eventDate), fragments[i + 1].docNum,
      fragments[i + 1].mapNum)
  {
  }
}
