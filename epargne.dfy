/** The savings engine of CalculateurEpargneFCFA: input validation, the
    closed-form totals and the choice of the insight message. Amounts are in
    FCFA; JavaScript numbers are modelled as exact reals. */
module Epargne {
  import opened RealMath

  /** The three parsed form fields: monthly amount, duration in years and
      annual rate in percent. The duration may be fractional. */
  datatype Plan = Plan(mensuel: real, annees: real, taux: real)

  /** The four figures as calculerInteretsComposes returns them: whole FCFA
      amounts and an interest share rounded to two decimals. */
  datatype Totals = Totals(totalInvesti: int, interets: int, capitalFinal: int, pourcentageInterets: real)

  /** The same four figures before the final rounding. */
  datatype Brut = Brut(totalInvesti: real, interets: real, capitalFinal: real, pourcentageInterets: real)

  /** What the page shows when the input is rejected. */
  const Zero := Totals(0, 0, 0, 0.0)

  /** validerInputs: fixed bounds on the three fields. Accepted plans are
      exactly those of at least 1000 FCFA a month over 12 to 600 months at
      a monthly rate between 0 and 1/60. */
  function ValiderInputs(data: Plan): (ok: bool)
    ensures ok <==> data.mensuel >= 1000.0 && 12.0 <= Mois(data) <= 600.0
                    && 0.0 <= TauxMensuel(data.taux) <= 1.0 / 60.0
  {
    data.mensuel >= 1000.0 && data.annees >= 1.0 && data.annees <= 50.0 && data.taux >= 0.0 && data.taux <= 20.0
  }

  /** Number of monthly periods, possibly fractional. */
  function Mois(data: Plan): real
  {
    data.annees * 12.0
  }

  /** The annual percentage turned into a monthly rate. */
  function TauxMensuel(taux: real): real
  {
    taux / 100.0 / 12.0
  }

  /** Unrounded totals. `pow` stands for Math.pow, whose exponent, the month
      count, need not be whole. */
  function CalculBrut(data: Plan, pow: (real, real) -> real): (b: Brut)
    ensures b.totalInvesti == data.mensuel * Mois(data)
    ensures TauxMensuel(data.taux) == 0.0 ==> b.capitalFinal == b.totalInvesti
    ensures TauxMensuel(data.taux) != 0.0 ==>
      b.capitalFinal * TauxMensuel(data.taux) == data.mensuel * (pow(1.0 + TauxMensuel(data.taux), Mois(data)) - 1.0)
    ensures b.capitalFinal == b.totalInvesti + b.interets
    ensures b.capitalFinal > 0.0 ==> b.pourcentageInterets * b.capitalFinal == b.interets * 100.0
    ensures b.capitalFinal <= 0.0 ==> b.pourcentageInterets == 0.0
    ensures data.taux == 0.0 ==> b.capitalFinal == b.totalInvesti && b.interets == 0.0 && b.pourcentageInterets == 0.0
  {
    var mois := data.annees * 12.0;
    var tauxMensuel := data.taux / 100.0 / 12.0;
    var capitalFinal :=
      if tauxMensuel == 0.0 then data.mensuel * mois
      else data.mensuel * ((pow(1.0 + tauxMensuel, mois) - 1.0) / tauxMensuel);
    var totalInvesti := data.mensuel * mois;
    var interets := capitalFinal - totalInvesti;
    var pourcentage := if capitalFinal > 0.0 then interets / capitalFinal * 100.0 else 0.0;
    Brut(totalInvesti, interets, capitalFinal, pourcentage)
  }

  /** calculerInteretsComposes: the unrounded totals, rounded only at the end. */
  function CalculerInteretsComposes(data: Plan, pow: (real, real) -> real): (t: Totals)
    ensures data.taux == 0.0 ==> t.capitalFinal == t.totalInvesti && t.interets == 0 && t.pourcentageInterets == 0.0
    ensures -1 <= t.capitalFinal - t.totalInvesti - t.interets <= 1
  {
    var b := CalculBrut(data, pow);
    RoundSumWithinOne(b.totalInvesti, b.interets);
    Totals(Round(b.totalInvesti), Round(b.interets), Round(b.capitalFinal), Round(b.pourcentageInterets * 100.0) as real / 100.0)
  }

  /** For a valid plan whose growth factor obeys Bernoulli's inequality (as
      (1 + r)^n does for r >= 0 and n >= 1, see PowBernoulli), the interest is
      never negative and its share lies between 0 and 100 percent, before and
      after rounding. */
  lemma PartInteretsBornee(data: Plan, pow: (real, real) -> real)
    requires ValiderInputs(data)
    requires pow(1.0 + TauxMensuel(data.taux), Mois(data)) >= 1.0 + TauxMensuel(data.taux) * Mois(data)
    ensures var b := CalculBrut(data, pow);
      b.interets >= 0.0 && 0.0 <= b.pourcentageInterets <= 100.0
    ensures var t := CalculerInteretsComposes(data, pow);
      t.interets >= 0 && 0.0 <= t.pourcentageInterets <= 100.0
  {
    var b := CalculBrut(data, pow);
    var r := TauxMensuel(data.taux);
    var n := Mois(data);
    var m := data.mensuel;
    assert n >= 12.0;
    assert b.totalInvesti >= 12000.0 by {
      assert m * n >= 1000.0 * n;
    }
    if r != 0.0 {
      assert r > 0.0;
      var g := pow(1.0 + r, n) - 1.0;
      assert g >= r * n;
      assert g / r >= n by {
        assert g / r * r == g;
      }
      assert b.capitalFinal == m * (g / r);
      assert m * (g / r) >= m * n;
    }
    assert b.interets >= 0.0;
    assert b.capitalFinal > 0.0;
    var s := b.pourcentageInterets;
    assert s * b.capitalFinal == b.interets * 100.0;
    assert s * b.capitalFinal <= 100.0 * b.capitalFinal;
    assert 0.0 <= s <= 100.0;
    RoundMonotone(0.0, s * 100.0);
    RoundMonotone(s * 100.0, 10000.0);
    RoundMonotone(0.0, b.interets);
  }

  /** Over whole years, where Math.pow is the whole power, Bernoulli's
      inequality holds, so no assumption is left: a valid plan never earns
      negative interest and its share lies between 0 and 100 percent. */
  lemma PartInteretsBorneeAnneesEntieres(data: Plan, pow: (real, real) -> real, annees: nat)
    requires ValiderInputs(data) && data.annees == annees as real
    requires pow(1.0 + TauxMensuel(data.taux), Mois(data)) == Pow(1.0 + TauxMensuel(data.taux), 12 * annees)
    ensures var b := CalculBrut(data, pow);
      b.interets >= 0.0 && 0.0 <= b.pourcentageInterets <= 100.0
    ensures var t := CalculerInteretsComposes(data, pow);
      t.interets >= 0 && 0.0 <= t.pourcentageInterets <= 100.0
  {
    PowBernoulli(TauxMensuel(data.taux), 12 * annees);
    PartInteretsBornee(data, pow);
  }

  /** For a valid plan whose growth factor obeys Bernoulli's inequality, a
      larger monthly amount gives a strictly larger final capital, at any
      duration, whole or not. */
  lemma CapitalFinalCroissantMensuel(data: Plan, m2: real, pow: (real, real) -> real)
    requires ValiderInputs(data) && data.mensuel < m2
    requires pow(1.0 + TauxMensuel(data.taux), Mois(data)) >= 1.0 + TauxMensuel(data.taux) * Mois(data)
    ensures CalculBrut(data, pow).capitalFinal < CalculBrut(data.(mensuel := m2), pow).capitalFinal
  {
    var d2 := data.(mensuel := m2);
    var r := TauxMensuel(data.taux);
    var n := Mois(data);
    assert Mois(d2) == n && TauxMensuel(d2.taux) == r;
    var c1 := CalculBrut(data, pow).capitalFinal;
    var c2 := CalculBrut(d2, pow).capitalFinal;
    if r == 0.0 {
      assert c1 == data.mensuel * n && c2 == m2 * n;
      ProduitCroissant(n, data.mensuel, m2, c1, c2);
    } else {
      MensuelPlusGrand(r, n, pow(1.0 + r, n) - 1.0, data.mensuel, m2, c1, c2);
    }
  }

  /** At zero rate the capital m n grows strictly with m. */
  lemma ProduitCroissant(n: real, m1: real, m2: real, c1: real, c2: real)
    requires n > 0.0 && m1 < m2 && c1 == m1 * n && c2 == m2 * n
    ensures c1 < c2
  {
    assert c2 - c1 == (m2 - m1) * n;
  }

  /** The closed form at a positive rate r, with a growth g >= r n > 0: the
      capital c with c r = m g grows strictly with m. */
  lemma MensuelPlusGrand(r: real, n: real, g: real, m1: real, m2: real, c1: real, c2: real)
    requires r > 0.0 && n > 0.0 && g >= r * n && m1 < m2
    requires c1 * r == m1 * g && c2 * r == m2 * g
    ensures c1 < c2
  {
    assert g > 0.0;
    assert (c2 - c1) * r == (m2 - m1) * g;
    assert (m2 - m1) * g > 0.0;
  }

  /** The four insight messages of afficherConseil. */
  datatype Conseil = SansInterets | Modeste | Excellent | Exceptionnel

  /** afficherConseil: the tier for the displayed interest and share. */
  function AfficherConseil(interets: int, pourcentageInterets: real): (c: Conseil)
    ensures c == SansInterets <==> interets == 0
    ensures c == Modeste <==> interets != 0 && pourcentageInterets < 25.0
    ensures c == Excellent <==> interets != 0 && 25.0 <= pourcentageInterets < 50.0
    ensures c == Exceptionnel <==> interets != 0 && 50.0 <= pourcentageInterets
  {
    if interets == 0 then SansInterets
    else if pourcentageInterets < 25.0 then Modeste
    else if pourcentageInterets < 50.0 then Excellent
    else Exceptionnel
  }

  /** Position of a tier on the scale of growing interest share. */
  function Rang(c: Conseil): nat
  {
    match c
    case SansInterets => 0
    case Modeste => 1
    case Excellent => 2
    case Exceptionnel => 3
  }

  /** With interest present, a larger share never selects a lower tier. */
  lemma ConseilMonotone(interets: int, p: real, q: real)
    requires interets != 0 && p <= q
    ensures 1 <= Rang(AfficherConseil(interets, p)) <= Rang(AfficherConseil(interets, q))
  {
  }

  /** A valid plan at zero rate always gets the no-interest message. */
  lemma ConseilTauxNul(data: Plan, pow: (real, real) -> real)
    requires ValiderInputs(data) && data.taux == 0.0
    ensures var t := CalculerInteretsComposes(data, pow);
      AfficherConseil(t.interets, t.pourcentageInterets) == SansInterets
  {
  }
}
