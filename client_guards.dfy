/** The checks the employee screen makes before it sends a claim or a share request
    (src/app/page.tsx:351-407) and the preset claim buttons it greys out
    (src/app/page.tsx:1566-1569). What the server then does with a request is not part
    of this model. */
module ClientGuards {

  import opened Types
  import opened Text
  import opened Market

  /** The claim dialog's state: the chosen preset (25, 50, 75 or 100), or -1 when the
      custom field is chosen, and the text of that field. */
  datatype ClaimForm = ClaimForm(choice: int, custom: string)

  /** `Number(x)` of a number field: a value, or NaN (None). */
  type Numeric = Option<real>

  /** The percentage the dialog stands for: the preset, or `Number(custom)`. */
  function ChosenPercentage(f: ClaimForm): (r: Numeric)
    ensures f.choice != -1 ==> r == Some(f.choice as real)
    ensures f.choice == -1 ==> r == NumberField(f.custom)
  {
    if f.choice == -1 then NumberField(f.custom) else Some(f.choice as real)
  }

  /** `percentage <= 0 || percentage > 100`: every comparison with NaN is false, so
      NaN is not refused. */
  predicate RefusedPercentage(p: Numeric) {
    p.Some? && (p.value <= 0.0 || p.value > 100.0)
  }

  /** What pressing "claim" does: nothing without a selected job and a logged-in
      employee, an alert for a refused percentage, or a request. A mini job always asks
      for one unit and skips the percentage check. */
  datatype ClaimOutcome =
    | Ignored
    | Alerted
    | ClaimUnits(employeeId: string, employeeName: string, units: int)
    | ClaimShare(employeeId: string, employeeName: string, percentage: Numeric)

  /** `handleClaimJob` up to the request it sends. */
  function Claim(job: Option<Job>, me: Option<Employee>, f: ClaimForm): (r: ClaimOutcome)
    ensures job.None? || me.None? <==> r.Ignored?
    ensures r.ClaimUnits? <==> job.Some? && me.Some? && IsMini(job.value)
    ensures r.ClaimUnits? ==> r.units == 1 && r.employeeId == me.value.id
    ensures r.Alerted? <==> job.Some? && me.Some? && !IsMini(job.value) && RefusedPercentage(ChosenPercentage(f))
    ensures r.ClaimShare? ==> r.employeeId == me.value.id && r.employeeName == me.value.name
                              && r.percentage == ChosenPercentage(f)
  {
    if job.None? || me.None? then Ignored
    else if IsMini(job.value) then ClaimUnits(me.value.id, me.value.name, 1)
    else if RefusedPercentage(ChosenPercentage(f)) then Alerted
    else ClaimShare(me.value.id, me.value.name, ChosenPercentage(f))
  }

  /** A standard claim that is sent carries a percentage in (0, 100]; it carries NaN
      only when the custom text is not a number at all. */
  lemma ClaimSentInRange(job: Option<Job>, me: Option<Employee>, f: ClaimForm)
    requires Claim(job, me, f).ClaimShare?
    ensures var p := Claim(job, me, f).percentage;
            p.Some? ==> 0.0 < p.value <= 100.0
    ensures Claim(job, me, f).percentage.None? <==> f.choice == -1 && NumberField(f.custom).None?
  {
  }

  /** For any number the custom field can hold, a standard claim is refused exactly
      when the number is not in (0, 100], and otherwise sent with that number. */
  lemma ClaimOfLiteral(job: Job, me: Employee, l: Literal)
    requires WellFormed(l) && !IsMini(job)
    ensures var r := Claim(Some(job), Some(me), ClaimForm(-1, LiteralText(l)));
            && (r == Alerted <==> LiteralValue(l) <= 0.0 || LiteralValue(l) > 100.0)
            && (r != Alerted ==> r == ClaimShare(me.id, me.name, Some(LiteralValue(l))))
  {
    NumberFieldReadsLiteral(l);
  }

  /** A negative, a too large and an exponent percentage are refused; a fraction within
      range is sent. */
  lemma ClaimExamples(job: Job, me: Employee)
    requires !IsMini(job)
    ensures forall n: nat :: Claim(Some(job), Some(me), ClaimForm(-1, "-" + NatToString(n))) == Alerted
    ensures Claim(Some(job), Some(me), ClaimForm(-1, "150.5")) == Alerted
    ensures Claim(Some(job), Some(me), ClaimForm(-1, "1e3")) == Alerted
    ensures Claim(Some(job), Some(me), ClaimForm(-1, "12.5")) == ClaimShare(me.id, me.name, Some(12.5))
  {
    forall n: nat
      ensures Claim(Some(job), Some(me), ClaimForm(-1, "-" + NatToString(n))) == Alerted
    {
      NumberFieldNegative(n);
    }
    NumberFieldFraction();
    NumberFieldLargeFraction();
    NumberFieldExponent();
  }

  /** An empty custom field reads as 0 and is refused. */
  lemma EmptyCustomRefused(job: Job, me: Employee)
    requires !IsMini(job)
    ensures Claim(Some(job), Some(me), ClaimForm(-1, "")) == Alerted
  {
  }

  /** The percentage check does not look at what is left of the job: a 100% custom
      claim on a job already half taken is still sent. */
  lemma ClaimIgnoresRemaining(job: Job, me: Employee)
    requires !IsMini(job) && ClaimedPercentage(job.assignments) == 50
    ensures Claim(Some(job), Some(me), ClaimForm(-1, "100")) == ClaimShare(me.id, me.name, Some(100.0))
  {
    assert AllDigits("100") && DigitsValue("100") == 100 by {
      DigitsRoundTrip(100);
      assert NatToString(100) == "100";
    }
    NumberFieldOfDigits("100");
  }

  /** A preset claim button is greyed out when it would take the job past 100%. */
  predicate PresetDisabled(job: Job, preset: int) {
    ClaimedPercentage(job.assignments) + preset > 100
  }

  /** The presets on offer. */
  const Presets: seq<int> := [25, 50, 75, 100]

  /** An enabled preset passes the percentage check, and a claim of that size keeps
      the job's claimed total within 100%; a disabled one would take it past 100%. */
  lemma EnabledPresetKeepsTotal(job: Job, me: Employee, preset: int, a: JobAssignment)
    requires preset in Presets && !IsMini(job)
    requires a.percentage == preset
    ensures !PresetDisabled(job, preset) ==>
              Claim(Some(job), Some(me), ClaimForm(preset, "")) == ClaimShare(me.id, me.name, Some(preset as real))
              && ClaimedPercentage(job.assignments + [a]) <= 100
    ensures PresetDisabled(job, preset) ==> ClaimedPercentage(job.assignments + [a]) > 100
  {
    ClaimedAfterAppend(job.assignments, a);
  }

  /** The share dialog's state: the holder's current percentage and the typed text. */
  datatype ShareForm = ShareForm(currentPct: int, input: string)

  datatype ShareOutcome = NoShare | ShareAlerted | Share(percentage: real)

  /** `handleShareJob` up to the request it sends: `!pct` refuses NaN and 0. */
  function ShareRequest(item: Option<ShareForm>): (r: ShareOutcome)
    ensures item.None? <==> r.NoShare?
    ensures r.Share? <==> item.Some? && NumberField(item.value.input).Some?
                           && 0.0 < NumberField(item.value.input).value <= item.value.currentPct as real
    ensures r.Share? ==> r.percentage == NumberField(item.value.input).value
  {
    if item.None? then NoShare
    else
      match NumberField(item.value.input)
      case None => ShareAlerted
      case Some(pct) =>
        if pct == 0.0 || pct <= 0.0 || pct > item.value.currentPct as real then ShareAlerted else Share(pct)
  }

  /** For any number the share field can hold, the share is sent exactly when it is
      more than 0 and at most the holding. */
  lemma ShareOfLiteral(currentPct: int, l: Literal)
    requires WellFormed(l)
    ensures ShareRequest(Some(ShareForm(currentPct, LiteralText(l))))
            == if 0.0 < LiteralValue(l) <= currentPct as real then Share(LiteralValue(l)) else ShareAlerted
  {
    NumberFieldReadsLiteral(l);
  }

  /** A share never hands over more than the holder has, giving up all of it is
      allowed, and a fraction of a percent is sent as it is. */
  lemma ShareWithinHolding(f: ShareForm)
    requires f.currentPct >= 1
    ensures ShareRequest(Some(f)).Share? ==> 0.0 < ShareRequest(Some(f)).percentage <= f.currentPct as real
    ensures ShareRequest(Some(ShareForm(f.currentPct, NatToString(f.currentPct)))) == Share(f.currentPct as real)
    ensures f.currentPct >= 13 ==> ShareRequest(Some(ShareForm(f.currentPct, "12.5"))) == Share(12.5)
  {
    DigitsRoundTrip(f.currentPct);
    NumberFieldOfDigits(NatToString(f.currentPct));
    NumberFieldFraction();
  }
}
