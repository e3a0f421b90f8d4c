/**
 * The profile editor's rules for height: a height may be changed at most
 * once every 30 days, must read as a whole number of centimetres between
 * 100 and 250, and saving builds the profile update field by field.
 * Dates are milliseconds since the epoch, given by the caller.
 */
module AthleticData {
  import opened Wrappers
  import opened Text

  const DayMs: int := 1000 * 60 * 60 * 24
  const LockDays: int := 30
  const MinTaille: int := 100
  const MaxTaille: int := 250

  const TailleError: string := "La taille doit être entre 100 et 250 cm"
  const NothingToSave: string := "Aucune modification à enregistrer"

  /** Whether the height field is locked, and from when it may be changed again. */
  datatype TailleLock = TailleLock(blocked: bool, nextModif: Option<int>)

  /**
   * `checkTailleModification`: with no recorded change the height is free;
   * otherwise it is locked while fewer than 30 whole days have passed, and
   * may be changed again 30 days after the last change.
   */
  function CheckTailleModification(lastModif: Option<int>, today: int): (lock: TailleLock)
    ensures lastModif.None? ==> !lock.blocked
    ensures lock.blocked <==> lastModif.Some? && today < lastModif.value + LockDays * DayMs
    ensures lock.nextModif.Some? <==> lock.blocked
    ensures lock.blocked ==> lock.nextModif.value == lastModif.value + LockDays * DayMs
  {
    match lastModif
    case None => TailleLock(false, None)
    case Some(last) =>
      // Math.floor of the quotient: Dafny's division floors for a positive divisor
      var daysSinceLastModif := (today - last) / DayMs;
      WholeDaysBelow(today - last, LockDays);
      if daysSinceLastModif < LockDays then TailleLock(true, Some(last + LockDays * DayMs))
      else TailleLock(false, None)
  }

  /** Fewer than `days` whole days have passed exactly when less than `days` days of time have passed. */
  lemma WholeDaysBelow(elapsed: int, days: int)
    ensures elapsed / DayMs < days <==> elapsed < days * DayMs
  {
    var q, r := elapsed / DayMs, elapsed % DayMs;
    assert elapsed == q * DayMs + r && 0 <= r < DayMs;
    if q < days {
      assert q * DayMs <= (days - 1) * DayMs;
    } else {
      assert q * DayMs >= days * DayMs;
    }
  }

  /** A value written to the profile row. */
  datatype ProfileValue = Str(text: string) | Num(number: int)

  /** `parseInt(taille)` is a number from 100 to 250. */
  predicate ValidTaille(taille: string) {
    ParseInt(taille).Some? && MinTaille <= ParseInt(taille).value <= MaxTaille
  }

  /** The height is written when the field is filled in and not locked. */
  predicate WritesTaille(taille: string, tailleBlocked: bool) {
    taille != "" && !tailleBlocked
  }

  /**
   * `handleSave`: the update set, or the error shown. `now` is the ISO
   * timestamp stamped with a new height.
   */
  method HandleSave(dateNaissance: string, taille: string, tailleBlocked: bool, now: string)
    returns (r: Result<map<string, ProfileValue>>)
    ensures r.Err? <==>
      ((WritesTaille(taille, tailleBlocked) && !ValidTaille(taille))
       || (dateNaissance == "" && !WritesTaille(taille, tailleBlocked)))
    ensures WritesTaille(taille, tailleBlocked) && !ValidTaille(taille) ==> r == Err(TailleError)
    ensures dateNaissance == "" && !WritesTaille(taille, tailleBlocked) ==> r == Err(NothingToSave)
    ensures r.Ok? ==> r.value.Keys <= {"date_de_naissance", "taille_cm", "taille_derniere_modif"}
    ensures r.Ok? ==> ("date_de_naissance" in r.value <==> dateNaissance != "")
    ensures r.Ok? && dateNaissance != "" ==> r.value["date_de_naissance"] == Str(dateNaissance)
    ensures r.Ok? ==> ("taille_cm" in r.value <==> WritesTaille(taille, tailleBlocked))
    ensures r.Ok? ==> ("taille_derniere_modif" in r.value <==> "taille_cm" in r.value)
    ensures r.Ok? && "taille_cm" in r.value ==>
      r.value["taille_cm"] == Num(ParseInt(taille).value)
      && MinTaille <= r.value["taille_cm"].number <= MaxTaille
      && r.value["taille_derniere_modif"] == Str(now)
  {
    var updates: map<string, ProfileValue> := map[];
    if dateNaissance != "" {
      updates := updates["date_de_naissance" := Str(dateNaissance)];
    }
    if taille != "" && !tailleBlocked {
      var tailleNum := ParseInt(taille);
      if tailleNum.None? || tailleNum.value < MinTaille || tailleNum.value > MaxTaille {
        return Err(TailleError);
      }
      updates := updates["taille_cm" := Num(tailleNum.value)];
      updates := updates["taille_derniere_modif" := Str(now)];
    }
    if |updates| == 0 {
      return Err(NothingToSave);
    }
    return Ok(updates);
  }
}
