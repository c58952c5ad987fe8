/** The Allergy value object (backend/src/domain/value-objects/Allergy.js). */
module Allergies {
  import opened Wrappers
  import Text
  import Reports
  import Keyed

  datatype Allergy = Allergy(name: string, severity: string, notes: string)

  /** What `toJSON` exposes: name, severity and notes, nothing else. */
  datatype AllergyJson = AllergyJson(name: string, severity: string, notes: string)

  const Severities: seq<string> := ["mild", "moderate", "severe"]

  const NameRequired := "Allergy name is required"
  const SeverityInvalid := "Severity must be mild, moderate, or severe"
  const Messages: seq<string> := [NameRequired, SeverityInvalid]

  /** `new Allergy(name, severity = 'moderate', notes = '')`; None is an omitted argument. */
  function New(name: string, severity: Option<string>, notes: Option<string>): (a: Allergy)
    ensures a.name == name
    ensures severity.None? ==> a.severity == "moderate"
    ensures severity.Some? ==> a.severity == severity.value
    ensures notes.None? ==> a.notes == ""
    ensures notes.Some? ==> a.notes == notes.value
  {
    Allergy(name,
            match severity case Some(s) => s case None => "moderate",
            match notes case Some(n) => n case None => "")
  }

  /** `a.equals(b)`: the notes play no part. */
  function Equals(a: Allergy, b: Allergy): (r: bool)
    ensures r <==> a.(notes := b.notes) == b
  {
    a.name == b.name && a.severity == b.severity
  }

  lemma EqualsIsEquivalence(a: Allergy, b: Allergy, c: Allergy)
    ensures Equals(a, a)
    ensures Equals(a, b) ==> Equals(b, a)
    ensures Equals(a, b) && Equals(b, c) ==> Equals(a, c)
  {
  }

  /** `a.validate()` */
  function Validate(a: Allergy): (r: Reports.Report)
    ensures r.errors == Reports.Select(Messages, [Text.Missing(a.name), a.severity !in Severities])
    ensures r.isValid <==> r.errors == []
    ensures r.isValid <==> !Text.Missing(a.name) && a.severity in Severities
  {
    var errors := (if Text.Missing(a.name) then [NameRequired] else [])
                + (if a.severity !in Severities then [SeverityInvalid] else []);
    Reports.SelectUnrolled(Messages, [Text.Missing(a.name), a.severity !in Severities]);
    Reports.FromErrors(errors)
  }

  /** Each rule's message is reported exactly when that rule fails. */
  lemma ValidateReportsEachRule(a: Allergy)
    ensures var errors := Validate(a).errors;
            && (NameRequired in errors <==> Text.Missing(a.name))
            && (SeverityInvalid in errors <==> a.severity !in Severities)
  {
    var failing := [Text.Missing(a.name), a.severity !in Severities];
    assert Keyed.NoDuplicates(Messages);
    Reports.SelectMember(Messages, failing, 0);
    Reports.SelectMember(Messages, failing, 1);
  }

  /** `a.toJSON()`: rebuilding an Allergy from the exported fields gives it back. */
  function ToJson(a: Allergy): (j: AllergyJson)
    ensures New(j.name, Some(j.severity), Some(j.notes)) == a
  {
    AllergyJson(a.name, a.severity, a.notes)
  }
}
