/** The fixed, ordered vaccination protocol (`vaccineSchedule.vaccines`). */
module Protocol {

  datatype Dose = Dose(name: string, description: string, ageMonths: nat, ageText: string)

  /** The number of doses; `ProtocolShape` states that it is the length of `Vaccines`. */
  const DoseCount: nat := 12

  const Vaccines: seq<Dose> := [
    Dose("BCG", "Bacillus Calmette-Guérin (Tuberculosis)", 0, "At birth"),
    Dose("Hepatitis B", "Hepatitis B vaccine", 0, "At birth"),
    Dose("DPT1", "Diphtheria, Pertussis, Tetanus (1st dose)", 2, "2 months"),
    Dose("Polio1", "Oral Polio Vaccine (1st dose)", 2, "2 months"),
    Dose("DPT2", "Diphtheria, Pertussis, Tetanus (2nd dose)", 4, "4 months"),
    Dose("Polio2", "Oral Polio Vaccine (2nd dose)", 4, "4 months"),
    Dose("DPT3", "Diphtheria, Pertussis, Tetanus (3rd dose)", 6, "6 months"),
    Dose("Polio3", "Oral Polio Vaccine (3rd dose)", 6, "6 months"),
    Dose("Measles1", "Measles vaccine (1st dose)", 9, "9 months"),
    Dose("MMR", "Measles, Mumps, Rubella", 12, "12 months"),
    Dose("DPT Booster", "DPT Booster dose", 18, "18 months"),
    Dose("Measles2", "Measles vaccine (2nd dose)", 24, "2 years")
  ]

  predicate AgesNondecreasing(s: seq<Dose>) {
    forall i, j :: 0 <= i <= j < |s| ==> s[i].ageMonths <= s[j].ageMonths
  }

  predicate NamesDistinct(s: seq<Dose>) {
    forall i, j :: 0 <= i < j < |s| ==> s[i].name != s[j].name
  }

  /** The name, read as its length and its last character, identifies a dose. */
  function NameKey(name: string): (int, char) {
    if name == [] then (0, ' ') else (|name|, name[|name| - 1])
  }

  const DoseKeys: seq<(int, char)> := [(3, 'G'), (11, 'B'), (4, '1'), (6, '1'), (4, '2'), (6, '2'),
                                       (4, '3'), (6, '3'), (8, '1'), (3, 'R'), (11, 'r'), (8, '2')]

  lemma DoseKeysOfNames()
    ensures |DoseKeys| == |Vaccines|
    ensures forall i :: 0 <= i < |Vaccines| ==> NameKey(Vaccines[i].name) == DoseKeys[i]
  {
    var keys := seq(|Vaccines|, i requires 0 <= i < |Vaccines| => NameKey(Vaccines[i].name));
    assert keys == DoseKeys;
  }

  lemma DoseKeysDistinct()
    ensures forall i, j :: 0 <= i < j < |DoseKeys| ==> DoseKeys[i] != DoseKeys[j]
  {
  }

  lemma NameKeysDistinct()
    ensures forall i, j :: 0 <= i < j < |Vaccines| ==> NameKey(Vaccines[i].name) != NameKey(Vaccines[j].name)
  {
    DoseKeysOfNames();
    DoseKeysDistinct();
  }

  /** The protocol runs in order of age, from birth to two years. */
  lemma AgesInOrder()
    ensures |Vaccines| == 12
    ensures AgesNondecreasing(Vaccines)
    ensures Vaccines[0].ageMonths == 0 && Vaccines[11].ageMonths == 24
  {
    DoseAgesOfVaccines();
    DoseAgesInOrder();
  }

  const DoseAges: seq<int> := [0, 0, 2, 2, 4, 4, 6, 6, 9, 12, 18, 24]

  lemma DoseAgesOfVaccines()
    ensures |DoseAges| == |Vaccines|
    ensures forall i :: 0 <= i < |Vaccines| ==> Vaccines[i].ageMonths == DoseAges[i]
  {
    var ages := seq(|Vaccines|, i requires 0 <= i < |Vaccines| => Vaccines[i].ageMonths);
    assert ages == DoseAges;
  }

  lemma DoseAgesInOrder()
    ensures forall i, j :: 0 <= i <= j < |DoseAges| ==> DoseAges[i] <= DoseAges[j]
  {
    assert forall i :: 0 <= i < |DoseAges| - 1 ==> DoseAges[i] <= DoseAges[i + 1];
  }

  /** Twelve doses, no two sharing a name, listed in order of age, from birth to two years. */
  lemma ProtocolShape()
    ensures |Vaccines| == DoseCount
    ensures NamesDistinct(Vaccines)
    ensures AgesNondecreasing(Vaccines)
    ensures Vaccines[0].ageMonths == 0 && Vaccines[11].ageMonths == 24
  {
    NameKeysDistinct();
    AgesInOrder();
  }
}
