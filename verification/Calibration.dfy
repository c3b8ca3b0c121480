/** The `calibration.update` command: fields checked and applied one at a time. */
module CalibrationModel {
  import opened Common

  /** A field of the command: left out, not a finite number, or a value. */
  datatype Field = Absent | NotFinite | Value(v: real)

  const FIELDS: nat := 4

  /** ACS712 offset and sensitivity, temperature offset, humidity offset. */
  type Values = s: seq<real> | |s| == FIELDS witness [0.0, 0.0, 0.0, 0.0]

  type Fields = s: seq<Field> | |s| == FIELDS witness [Absent, Absent, Absent, Absent]

  /** `source`: None when the command names none. */
  datatype Update = Update(version: Option<u8>, fields: Fields, source: Option<string>)

  datatype Profile = Profile(version: u8, values: Values, source: string)

  function Low(i: nat): real
    requires i < FIELDS
  {
    if i == 0 then 0.0 else if i == 1 then 10.0 else -50.0
  }

  function High(i: nat): real
    requires i < FIELDS
  {
    if i == 0 then 3300.0 else if i == 1 then 400.0 else 50.0
  }

  predicate Acceptable(i: nat, f: Field)
    requires i < FIELDS
  {
    match f case Absent => true case NotFinite => false case Value(v) => Low(i) <= v <= High(i)
  }

  /** The calibration in use and the one in flash. */
  datatype Calibration = Calibration(live: Profile, saved: Profile)

  const SOURCE_MAX: nat := 15

  function Clip(t: string): string {
    t[..Min(|t|, SOURCE_MAX)]
  }

  /** Work through the fields from i on; false means one was refused. */
  function ApplyFrom(values: Values, f: Fields, i: nat): (Values, bool)
    requires i <= FIELDS
    decreases FIELDS - i
  {
    if i == FIELDS then (values, true)
    else if !Acceptable(i, f[i]) then (values, false)
    else ApplyFrom(if f[i].Value? then values[i := f[i].v] else values, f, i + 1)
  }

  /** The version is taken over first, the fields in their order, the source last; then flash is written. */
  function Apply(c: Calibration, u: Update): (Calibration, bool) {
    var (values, ok) := ApplyFrom(c.live.values, u.fields, 0);
    var live := c.live.(version := if u.version.Some? then u.version.value else c.live.version, values := values);
    if !ok then (Calibration(live, c.saved), false)
    else
      var named := if u.source.Some? then live.(source := Clip(u.source.value)) else live;
      (Calibration(named, named), true)
  }

  // ---- What a refused update leaves behind ------------------------------------------------------

  predicate AllAcceptable(f: Fields) {
    forall i | 0 <= i < FIELDS :: Acceptable(i, f[i])
  }

  /** The value field i ends up with. */
  function Wanted(values: Values, f: Fields, i: nat): real
    requires i < FIELDS
  {
    if f[i].Value? then f[i].v else values[i]
  }

  /** Index of the first refused field, or the number of fields. */
  function FirstBad(f: Fields, i: nat): (n: nat)
    requires i <= FIELDS
    ensures i <= n <= FIELDS
    ensures forall k | i <= k < n :: Acceptable(k, f[k])
    ensures n < FIELDS ==> !Acceptable(n, f[n])
    decreases FIELDS - i
  {
    if i == FIELDS || !Acceptable(i, f[i]) then i else FirstBad(f, i + 1)
  }

  lemma {:induction false} ApplyUpToBad(values: Values, f: Fields, i: nat)
    requires i <= FIELDS
    ensures var (r, ok) := ApplyFrom(values, f, i);
            && (ok <==> FirstBad(f, i) == FIELDS)
            && forall k | 0 <= k < FIELDS :: r[k] == if i <= k < FirstBad(f, i) then Wanted(values, f, k) else values[k]
    decreases FIELDS - i
  {
    if i < FIELDS && Acceptable(i, f[i]) {
      ApplyUpToBad(if f[i].Value? then values[i := f[i].v] else values, f, i + 1);
    }
  }

  /** Accepted exactly when every field is acceptable; then all of them are in use and in flash. */
  lemma AcceptedIff(c: Calibration, u: Update)
    ensures Apply(c, u).1 <==> AllAcceptable(u.fields)
    ensures Apply(c, u).1 ==>
      var r := Apply(c, u).0;
      && r.saved == r.live
      && (forall k | 0 <= k < FIELDS :: r.live.values[k] == Wanted(c.live.values, u.fields, k))
      && r.live.version == (if u.version.Some? then u.version.value else c.live.version)
      && (u.source.None? ==> r.live.source == c.live.source)
      && (u.source.Some? ==> r.live.source == if |u.source.value| <= 15 then u.source.value else u.source.value[..15])
  {
    ApplyUpToBad(c.live.values, u.fields, 0);
  }

  predicate Between(f: Field, low: real, high: real) {
    f.Absent? || (f.Value? && low <= f.v <= high)
  }

  /** What is accepted: millivolts of offset and sensitivity, and corrections of up to 50 either way. */
  lemma RangesIff(c: Calibration, u: Update)
    ensures Apply(c, u).1 <==>
              && Between(u.fields[0], 0.0, 3300.0) && Between(u.fields[1], 10.0, 400.0)
              && Between(u.fields[2], -50.0, 50.0) && Between(u.fields[3], -50.0, 50.0)
  {
    AcceptedIff(c, u);
    assert AllAcceptable(u.fields) <==>
           && Acceptable(0, u.fields[0]) && Acceptable(1, u.fields[1])
           && Acceptable(2, u.fields[2]) && Acceptable(3, u.fields[3]);
  }

  /** What comes ahead of the refused field, the version first, repeats what is in use. */
  predicate NothingNewAhead(c: Calibration, u: Update) {
    && (u.version.Some? ==> u.version.value == c.live.version)
    && forall k | 0 <= k < FirstBad(u.fields, 0) :: Wanted(c.live.values, u.fields, k) == c.live.values[k]
  }

  /**
   * A refused update never reaches flash, but it leaves the calibration in use
   * unchanged only if what comes ahead of the refused field repeats what is there.
   */
  lemma RefusedChangesNothingIff(c: Calibration, u: Update)
    requires !AllAcceptable(u.fields)
    ensures Apply(c, u).0.saved == c.saved
    ensures Apply(c, u).0.live == c.live <==> NothingNewAhead(c, u)
  {
    ApplyUpToBad(c.live.values, u.fields, 0);
    AcceptedIff(c, u);
    var r := Apply(c, u).0.live.values;
    if k :| 0 <= k < FirstBad(u.fields, 0) && Wanted(c.live.values, u.fields, k) != c.live.values[k] {
      assert r[k] != c.live.values[k];
    } else {
      assert r == c.live.values;
    }
  }

  /** A good offset followed by an impossible sensitivity: refused, yet the offset is live. */
  lemma HalfApplied(c: Calibration, v: real)
    requires Low(0) <= v <= High(0) && v != c.live.values[0]
    ensures var (c', ok) := Apply(c, Update(None, [Value(v), Value(0.0), Absent, Absent], None));
            !ok && c'.live.values[0] == v && c'.saved == c.saved
  {
    var f: Fields := [Value(v), Value(0.0), Absent, Absent];
    assert ApplyFrom(c.live.values[0 := v], f, 1) == (c.live.values[0 := v], false);
  }
}

/** The calibration globals as the receiver changes them. */
module CalibrationStore {
  import opened Common
  import opened CalibrationModel

  class Store {
    var version: u8
    const values: array<real>
    var source: string
    var saved: Profile

    ghost predicate Valid() {
      values.Length == FIELDS
    }

    ghost function Live(): Profile
      reads this, values
      requires Valid()
    {
      Profile(version, values[..], source)
    }

    ghost function View(): Calibration
      reads this, values
      requires Valid()
    {
      Calibration(Live(), saved)
    }

    constructor (saved: Profile)
      ensures Valid() && fresh(values) && View() == Calibration(saved, saved)
    {
      values := new real[FIELDS](i requires 0 <= i < FIELDS => saved.values[i]);
      version, source, this.saved := saved.version, saved.source, saved;
      new;
      assert values[..] == saved.values;
    }

    method ApplyFields(f: Fields) returns (ok: bool)
      requires Valid()
      modifies values
      ensures (values[..], ok) == ApplyFrom(old(values[..]), f, 0)
    {
      var i := 0;
      while i < FIELDS
        invariant 0 <= i <= FIELDS
        invariant ApplyFrom(values[..], f, i) == ApplyFrom(old(values[..]), f, 0)
      {
        if !Acceptable(i, f[i]) {
          return false;
        }
        ghost var was := values[..];
        if f[i].Value? {
          values[i] := f[i].v;
          assert values[..] == was[i := f[i].v];
        }
        i := i + 1;
      }
      return true;
    }

    method ApplyUpdate(u: Update) returns (ok: bool)
      requires Valid()
      modifies this`version, this`source, this`saved, values
      ensures (View(), ok) == Apply(old(View()), u)
    {
      if u.version.Some? {
        version := u.version.value;
      }
      ok := ApplyFields(u.fields);
      if !ok {
        return;
      }
      if u.source.Some? {
        source := Clip(u.source.value);
      }
      saved := Profile(version, values[..], source);
    }
  }
}
