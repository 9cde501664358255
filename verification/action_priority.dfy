/** The Action Priority classifier: a simplified rule in the spirit of the
    AIAG-VDA FMEA Handbook (2019) Action Priority table, not the official
    table. Severity, occurrence and detection are integers; 0 means unset. */
module ActionPriorityRule {
  import opened FmeaTypes

  /** The tier for a severity/occurrence/detection triple. Total: every
      integer triple yields exactly one tier, with no error path. */
  function CalculateAP(s: int, o: int, d: int): (ap: ActionPriority)
    ensures ap == LOW <==> s <= 3
    ensures ap == HIGH ==> s >= 4 && o >= 4
  {
    if s >= 9 then
      if o >= 6 then HIGH
      else if o >= 4 && d >= 7 then HIGH
      else if o <= 3 && d >= 5 then MEDIUM
      else MEDIUM
    else if s >= 7 then
      if o >= 8 then HIGH
      else if o >= 6 && d >= 5 then HIGH
      else if o >= 4 && d >= 7 then HIGH
      else MEDIUM
    else if s >= 4 then
      if o >= 8 && d >= 7 then HIGH
      else if o >= 6 && d >= 9 then HIGH
      else MEDIUM
    else LOW
  }

  /** The derived-field invariant of a cause: its priority is the rule
      applied to its own scores. */
  predicate CauseRated(c: FmeaCause) {
    c.actionPriority == CalculateAP(c.severity, c.occurrence, c.detection)
  }

  /** The derived-field invariant of an action: its re-rated priority is the
      rule applied to its re-rating scores. */
  predicate ActionRated(a: FmeaAction) {
    a.newActionPriority == CalculateAP(a.newSeverity, a.newOccurrence, a.newDetection)
  }

  /** The order LOW < MEDIUM < HIGH. */
  function Rank(p: ActionPriority): nat {
    match p
    case LOW => 0
    case MEDIUM => 1
    case HIGH => 2
  }

  /** Severity 9 or 10: HIGH exactly when O >= 6 or (O >= 4 and D >= 7), MEDIUM otherwise
      (the O <= 3 and D >= 5 branch gives the same MEDIUM as the fall-through). */
  lemma VeryHighSeverityBand(s: int, o: int, d: int)
    requires s >= 9
    ensures CalculateAP(s, o, d) == HIGH <==> o >= 6 || (o >= 4 && d >= 7)
    ensures CalculateAP(s, o, d) != HIGH ==> CalculateAP(s, o, d) == MEDIUM
    ensures o >= 6 ==> CalculateAP(s, o, d) == HIGH
    ensures o <= 3 && d >= 5 ==> CalculateAP(s, o, d) == MEDIUM
  {
  }

  /** Severity 7 or 8. */
  lemma HighSeverityBand(s: int, o: int, d: int)
    requires 7 <= s <= 8
    ensures CalculateAP(s, o, d) == HIGH <==> o >= 8 || (o >= 6 && d >= 5) || (o >= 4 && d >= 7)
    ensures CalculateAP(s, o, d) != HIGH ==> CalculateAP(s, o, d) == MEDIUM
  {
  }

  /** Severity 4 to 6. */
  lemma MediumSeverityBand(s: int, o: int, d: int)
    requires 4 <= s <= 6
    ensures CalculateAP(s, o, d) == HIGH <==> (o >= 8 && d >= 7) || (o >= 6 && d >= 9)
    ensures CalculateAP(s, o, d) != HIGH ==> CalculateAP(s, o, d) == MEDIUM
  {
  }

  /** Raising any one score never lowers the tier. */
  lemma Monotone(s: int, o: int, d: int, s': int, o': int, d': int)
    requires s <= s' && o <= o' && d <= d'
    ensures Rank(CalculateAP(s, o, d)) <= Rank(CalculateAP(s', o', d'))
  {
  }

  /** The all-unset triple classifies as LOW, the default a new cause is given. */
  lemma UnsetIsLow()
    ensures CalculateAP(0, 0, 0) == LOW
  {
  }
}
