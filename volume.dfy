/** Volume of one workout as it arrives from the remote workout list:
    the sum, over every set of every exercise, of weight in kilograms times
    2.20462 times repetitions, rounded to whole pounds. */
module Volume {
  import opened Wrappers

  /** One set. A field the payload leaves out (or sends as null) is None. */
  datatype SetEntry = SetEntry(weightKg: Option<real>, reps: Option<int>)

  datatype Exercise = Exercise(sets: seq<SetEntry>)

  /** A workout as delivered by the remote API; timestamps are already parsed
      to milliseconds since the epoch. */
  datatype HevyWorkout = HevyWorkout(
    id: string,
    title: Option<string>,
    startTime: int,
    endTime: Option<int>,
    exercises: seq<Exercise>)

  const LbPerKg: real := 2.20462

  /** JavaScript truthiness of a numeric field: missing, null and zero are false. */
  predicate Truthy<N(==)>(v: Option<N>, zero: N) {
    v.Some? && v.value != zero
  }

  /** A set takes part in the volume only when both weight and reps are truthy. */
  predicate Counts(s: SetEntry) {
    Truthy(s.weightKg, 0.0) && Truthy(s.reps, 0)
  }

  function SetVolume(s: SetEntry): real {
    if Counts(s) then (s.weightKg.value * LbPerKg) * (s.reps.value as real) else 0.0
  }

  /** Sum of the set volumes, accumulated from the front. */
  function SetsVolume(sets: seq<SetEntry>): real {
    if sets == [] then 0.0 else SetsVolume(sets[..|sets| - 1]) + SetVolume(sets[|sets| - 1])
  }

  function ExercisesVolume(exs: seq<Exercise>): real {
    if exs == [] then 0.0 else ExercisesVolume(exs[..|exs| - 1]) + SetsVolume(exs[|exs| - 1].sets)
  }

  /** `Math.round`: to the nearest integer, halves rounded up. */
  function Round(x: real): (r: int)
    ensures r as real - 0.5 <= x < r as real + 0.5
  {
    (x + 0.5).Floor
  }

  /** The stored volume of a workout, in whole pounds. */
  function VolumeLb(w: HevyWorkout): int {
    Round(ExercisesVolume(w.exercises))
  }

  /** The nested accumulation loop of the source. */
  method CalculateVolumeLb(w: HevyWorkout) returns (r: int)
    ensures r == VolumeLb(w)
  {
    var vol := 0.0;
    var exs := w.exercises;
    var i := 0;
    while i < |exs|
      invariant 0 <= i <= |exs|
      invariant vol == ExercisesVolume(exs[..i])
    {
      var sets := exs[i].sets;
      var j := 0;
      while j < |sets|
        invariant 0 <= j <= |sets|
        invariant vol == ExercisesVolume(exs[..i]) + SetsVolume(sets[..j])
      {
        var s := sets[j];
        if s.weightKg.Some? && s.weightKg.value != 0.0 && s.reps.Some? && s.reps.value != 0 {
          vol := vol + (s.weightKg.value * LbPerKg) * (s.reps.value as real);
        }
        assert sets[..j + 1][..j] == sets[..j];
        j := j + 1;
      }
      assert sets[..j] == sets;
      assert exs[..i + 1][..i] == exs[..i];
      i := i + 1;
    }
    assert exs[..i] == exs;
    r := Round(vol);
  }

  /** Volume is additive over concatenated set lists. */
  lemma {:induction false} SetsVolumeAppend(a: seq<SetEntry>, b: seq<SetEntry>)
    ensures SetsVolume(a + b) == SetsVolume(a) + SetsVolume(b)
  {
    if b != [] {
      assert (a + b)[..|a + b| - 1] == a + b[..|b| - 1];
      SetsVolumeAppend(a, b[..|b| - 1]);
    } else {
      assert a + b == a;
    }
  }

  function CountingSets(sets: seq<SetEntry>): (r: seq<SetEntry>)
    ensures forall s :: s in r ==> Counts(s)
    ensures |r| <= |sets|
  {
    if sets == [] then []
    else if Counts(sets[0]) then [sets[0]] + CountingSets(sets[1..])
    else CountingSets(sets[1..])
  }

  /** Sets whose weight or reps is zero or missing contribute nothing:
      removing them leaves the volume unchanged. */
  lemma {:induction false} OnlyCountingSetsMatter(sets: seq<SetEntry>)
    ensures SetsVolume(CountingSets(sets)) == SetsVolume(sets)
  {
    if sets != [] {
      OnlyCountingSetsMatter(sets[1..]);
      assert sets == [sets[0]] + sets[1..];
      SetsVolumeAppend([sets[0]], sets[1..]);
      assert [sets[0]][..0] == [];
      if Counts(sets[0]) {
        SetsVolumeAppend([sets[0]], CountingSets(sets[1..]));
      }
    }
  }

  /** A workout with no exercises, or only exercises without counting sets,
      has volume 0. */
  lemma {:induction false} NoCountingSetsNoVolume(w: HevyWorkout)
    requires forall e, s :: e in w.exercises && s in e.sets ==> !Counts(s)
    ensures VolumeLb(w) == 0
  {
    NoCountingSetsZero(w.exercises);
  }

  lemma {:induction false} NoCountingSetsZero(exs: seq<Exercise>)
    requires forall e, s :: e in exs && s in e.sets ==> !Counts(s)
    ensures ExercisesVolume(exs) == 0.0
  {
    if exs != [] {
      var last := exs[|exs| - 1];
      NoCountingSetsZero(exs[..|exs| - 1]);
      ZeroSets(last.sets);
    }
  }

  lemma {:induction false} ZeroSets(sets: seq<SetEntry>)
    requires forall s :: s in sets ==> !Counts(s)
    ensures SetsVolume(sets) == 0.0
  {
    if sets != [] {
      ZeroSets(sets[..|sets| - 1]);
    }
  }

  /** With non-negative weights and repetitions the volume is non-negative. */
  lemma {:induction false} NonNegativeVolume(w: HevyWorkout)
    requires forall e, s :: e in w.exercises && s in e.sets && Counts(s) ==>
               s.weightKg.value >= 0.0 && s.reps.value >= 0
    ensures VolumeLb(w) >= 0
  {
    NonNegativeExercises(w.exercises);
  }

  lemma {:induction false} NonNegativeExercises(exs: seq<Exercise>)
    requires forall e, s :: e in exs && s in e.sets && Counts(s) ==>
               s.weightKg.value >= 0.0 && s.reps.value >= 0
    ensures ExercisesVolume(exs) >= 0.0
  {
    if exs != [] {
      NonNegativeExercises(exs[..|exs| - 1]);
      NonNegativeSets(exs[|exs| - 1].sets);
    }
  }

  lemma {:induction false} NonNegativeSets(sets: seq<SetEntry>)
    requires forall s :: s in sets && Counts(s) ==> s.weightKg.value >= 0.0 && s.reps.value >= 0
    ensures SetsVolume(sets) >= 0.0
  {
    if sets != [] {
      NonNegativeSets(sets[..|sets| - 1]);
    }
  }
}
