/** genererProjection: the year-by-year capital shown on the growth chart,
    computed month by month, and how it relates to the closed-form totals. */
module Projection {
  import opened RealMath
  import opened Epargne

  /** One point of the chart: a year number and the rounded capital. */
  datatype Point = Point(annee: int, capital: int)

  /** How many times `for (annee = 1; annee <= annees; annee++)` runs: the
      whole years 1, 2, ... not beyond the (possibly fractional) duration. */
  function NbAnnees(annees: real): (k: nat)
    ensures k == 0 <==> annees < 1.0
    ensures k > 0 ==> k as real <= annees < (k + 1) as real
  {
    if annees < 1.0 then 0 else annees.Floor
  }

  /** Capital after k months of the projection's loop, where each month the
      contribution is added first and the whole balance then earns rate r. */
  function CapitalApres(mensuel: real, r: real, k: nat): real
  {
    if k == 0 then 0.0 else (CapitalApres(mensuel, r, k - 1) + mensuel) * (1.0 + r)
  }

  /** Capital after k months when the balance earns rate r first and the
      contribution is added at the end of the month: the recurrence whose
      closed form is the ordinary annuity of calculerInteretsComposes. */
  function CapitalFinDeMois(mensuel: real, r: real, k: nat): real
  {
    if k == 0 then 0.0 else CapitalFinDeMois(mensuel, r, k - 1) * (1.0 + r) + mensuel
  }

  /** One month of the add-then-grow recurrence, from the balance c after k months. */
  lemma CapitalApresSuivant(mensuel: real, r: real, c: real, k: nat)
    requires c == CapitalApres(mensuel, r, k)
    ensures CapitalApres(mensuel, r, k + 1) == (c + mensuel) * (1.0 + r)
  {
  }

  /** One month of the grow-then-add recurrence, from the balance c after k months. */
  lemma CapitalFinDeMoisSuivant(mensuel: real, r: real, c: real, k: nat)
    requires c == CapitalFinDeMois(mensuel, r, k)
    ensures CapitalFinDeMois(mensuel, r, k + 1) == c * (1.0 + r) + mensuel
  {
  }

  /** The chart of n whole years: year k, from 1 to n, carries solde(k). */
  function Courbe(solde: nat -> int, n: nat): (p: seq<Point>)
    ensures |p| == n
  {
    if n == 0 then [] else Courbe(solde, n - 1) + [Point(n, solde(n))]
  }

  /** Point by point: entry i of the chart is year i + 1 and its balance. */
  lemma {:induction false} CourbePoints(solde: nat -> int, n: nat)
    ensures forall i :: 0 <= i < n ==> Courbe(solde, n)[i] == Point(i + 1, solde(i + 1))
    decreases n
  {
    if n > 0 {
      CourbePoints(solde, n - 1);
      var avant := Courbe(solde, n - 1);
      assert Courbe(solde, n) == avant + [Point(n, solde(n))];
      forall i | 0 <= i < n
        ensures Courbe(solde, n)[i] == Point(i + 1, solde(i + 1))
      {
        if i < n - 1 {
          assert Courbe(solde, n)[i] == avant[i];
        }
      }
    }
  }

  /** The rounded balance genererProjection shows for a year: the
      add-then-grow recurrence after 12 months per year. */
  function SoldesAnnuels(mensuel: real, r: real): nat -> int
  {
    (annee: nat) => Round(CapitalApres(mensuel, r, 12 * annee))
  }

  /** genererProjection: a nested year/month loop that adds the contribution,
      applies the monthly rate, and pushes one rounded point per whole year. */
  method GenererProjection(data: Plan) returns (projection: seq<Point>)
    ensures projection == Courbe(SoldesAnnuels(data.mensuel, TauxMensuel(data.taux)), NbAnnees(data.annees))
  {
    projection := [];
    var capital := 0.0;
    var tauxMensuel := data.taux / 100.0 / 12.0;
    var annee := 1;
    while annee as real <= data.annees
      invariant 1 <= annee <= NbAnnees(data.annees) + 1
      invariant capital == CapitalApres(data.mensuel, tauxMensuel, 12 * (annee - 1))
      invariant projection == Courbe(SoldesAnnuels(data.mensuel, tauxMensuel), annee - 1)
      decreases NbAnnees(data.annees) + 1 - annee
    {
      var mois := 1;
      ghost var k: nat := 12 * (annee - 1);
      while mois <= 12
        invariant 1 <= mois <= 13 && k == 12 * (annee - 1) + mois - 1
        invariant capital == CapitalApres(data.mensuel, tauxMensuel, k)
      {
        CapitalApresSuivant(data.mensuel, tauxMensuel, capital, k);
        capital := capital + data.mensuel;
        capital := capital * (1.0 + tauxMensuel);
        mois := mois + 1;
        k := k + 1;
      }
      assert Round(capital) == SoldesAnnuels(data.mensuel, tauxMensuel)(annee);
      projection := projection + [Point(annee, Round(capital))];
      annee := annee + 1;
    }
  }

  /** With a non-negative contribution and rate the chart never goes down. */
  lemma ProjectionCroissante(mensuel: real, r: real, n: nat)
    requires mensuel >= 0.0 && r >= 0.0
    ensures var p := Courbe(SoldesAnnuels(mensuel, r), n);
      forall i, j :: 0 <= i <= j < n ==> p[i].capital <= p[j].capital
  {
    var p := Courbe(SoldesAnnuels(mensuel, r), n);
    CourbePoints(SoldesAnnuels(mensuel, r), n);
    forall i, j | 0 <= i <= j < n
      ensures p[i].capital <= p[j].capital
    {
      CapitalCroissant(mensuel, r, 12 * (i + 1), 12 * (j + 1));
      RoundMonotone(CapitalApres(mensuel, r, 12 * (i + 1)), CapitalApres(mensuel, r, 12 * (j + 1)));
    }
  }

  /** At zero rate the chart shows the rounded sums of contributions. */
  lemma ProjectionTauxNul(mensuel: real, n: nat)
    ensures var p := Courbe(SoldesAnnuels(mensuel, 0.0), n);
      forall i :: 0 <= i < n ==> p[i].capital == Round(mensuel * 12.0 * (i + 1) as real)
  {
    var p := Courbe(SoldesAnnuels(mensuel, 0.0), n);
    CourbePoints(SoldesAnnuels(mensuel, 0.0), n);
    forall i | 0 <= i < n
      ensures p[i].capital == Round(mensuel * 12.0 * (i + 1) as real)
    {
      CapitalTauxNul(mensuel, 12 * (i + 1));
      assert mensuel * (12 * (i + 1)) as real == mensuel * 12.0 * (i + 1) as real;
    }
  }

  /** At zero rate the projected capital is just the sum of contributions. */
  lemma {:induction false} CapitalTauxNul(mensuel: real, k: nat)
    ensures CapitalApres(mensuel, 0.0, k) == mensuel * k as real
    decreases k
  {
    if k > 0 {
      CapitalTauxNul(mensuel, k - 1);
      assert mensuel * (k - 1) as real + mensuel == mensuel * k as real;
    }
  }

  /** With non-negative contribution and rate the projected capital is
      non-negative and never decreases from one month to a later one. */
  lemma {:induction false} CapitalCroissant(mensuel: real, r: real, j: nat, k: nat)
    requires mensuel >= 0.0 && r >= 0.0 && j <= k
    ensures 0.0 <= CapitalApres(mensuel, r, j) <= CapitalApres(mensuel, r, k)
    decreases k
  {
    if j < k {
      CapitalCroissant(mensuel, r, j, k - 1);
      CroissancePas(mensuel, r, CapitalApres(mensuel, r, k - 1), CapitalApres(mensuel, r, k));
    } else if k > 0 {
      CapitalCroissant(mensuel, r, 0, k - 1);
      CroissancePas(mensuel, r, CapitalApres(mensuel, r, k - 1), CapitalApres(mensuel, r, k));
    }
  }

  /** One month of the add-then-grow recurrence does not lower the balance. */
  lemma CroissancePas(m: real, r: real, c: real, c2: real)
    requires m >= 0.0 && r >= 0.0 && c >= 0.0 && c2 == (c + m) * (1.0 + r)
    ensures c <= c2
  {
    assert c2 == (c + m) + (c + m) * r;
  }

  /** Adding the contribution before the interest instead of after it
      multiplies every balance by exactly (1 + r). */
  lemma {:induction false} CapitalDebutEtFinDeMois(mensuel: real, r: real, k: nat)
    ensures CapitalApres(mensuel, r, k) == (1.0 + r) * CapitalFinDeMois(mensuel, r, k)
    decreases k
  {
    if k > 0 {
      CapitalDebutEtFinDeMois(mensuel, r, k - 1);
      DebutEtFinDeMoisPas(1.0 + r, mensuel, CapitalApres(mensuel, r, k - 1), CapitalFinDeMois(mensuel, r, k - 1),
                          CapitalApres(mensuel, r, k), CapitalFinDeMois(mensuel, r, k));
    }
  }

  /** One month of both recurrences, s standing for 1 + r. */
  lemma DebutEtFinDeMoisPas(s: real, m: real, a: real, f: real, a2: real, f2: real)
    requires a == s * f && a2 == (a + m) * s && f2 == f * s + m
    ensures a2 == s * f2
  {
  }

  /** Closed form of the end-of-month recurrence: r F(k) = m ((1 + r)^k - 1). */
  lemma {:induction false} CapitalFinDeMoisFormeFermee(mensuel: real, r: real, k: nat)
    ensures r * CapitalFinDeMois(mensuel, r, k) == mensuel * (Pow(1.0 + r, k) - 1.0)
    decreases k
  {
    if k > 0 {
      CapitalFinDeMoisFormeFermee(mensuel, r, k - 1);
      FormeFermeePas(r, mensuel, CapitalFinDeMois(mensuel, r, k - 1), Pow(1.0 + r, k - 1),
                     CapitalFinDeMois(mensuel, r, k), Pow(1.0 + r, k));
    }
  }

  /** One month of the closed form: if r f = m (p - 1) before the month, the
      same holds after it. */
  lemma FormeFermeePas(r: real, m: real, f: real, p: real, f2: real, p2: real)
    requires r * f == m * (p - 1.0) && f2 == f * (1.0 + r) + m && p2 == (1.0 + r) * p
    ensures r * f2 == m * (p2 - 1.0)
  {
    assert r * f2 == (r * f) * (1.0 + r) + r * m;
  }

  /** Over whole years, and with `pow` agreeing with the whole power where it
      is used, the closed-form final capital of calculerInteretsComposes is the
      end-of-month recurrence, at any rate, zero included. */
  lemma CapitalFinalFinDeMois(data: Plan, pow: (real, real) -> real, annees: nat)
    requires data.annees == annees as real
    requires pow(1.0 + TauxMensuel(data.taux), Mois(data)) == Pow(1.0 + TauxMensuel(data.taux), 12 * annees)
    ensures CalculBrut(data, pow).capitalFinal == CapitalFinDeMois(data.mensuel, TauxMensuel(data.taux), 12 * annees)
  {
    if TauxMensuel(data.taux) == 0.0 {
      assert Mois(data) == (12 * annees) as real;
      CapitalTauxNulFinDeMois(data.mensuel, 12 * annees);
    } else {
      CapitalFinalTauxNonNul(data, pow, annees);
    }
  }

  lemma CapitalFinalTauxNonNul(data: Plan, pow: (real, real) -> real, annees: nat)
    requires data.annees == annees as real
    requires pow(1.0 + TauxMensuel(data.taux), Mois(data)) == Pow(1.0 + TauxMensuel(data.taux), 12 * annees)
    requires TauxMensuel(data.taux) != 0.0
    ensures CalculBrut(data, pow).capitalFinal == CapitalFinDeMois(data.mensuel, TauxMensuel(data.taux), 12 * annees)
  {
    CapitalFinalPuissanceEntiere(data, pow, annees);
    FormeFermeeDetermineCapital(CalculBrut(data, pow).capitalFinal, data.mensuel, TauxMensuel(data.taux), 12 * annees);
  }

  /** A nonzero rate determines the capital from the closed form. */
  lemma FormeFermeeDetermineCapital(c: real, mensuel: real, r: real, k: nat)
    requires r != 0.0 && c * r == mensuel * (Pow(1.0 + r, k) - 1.0)
    ensures c == CapitalFinDeMois(mensuel, r, k)
  {
    CapitalFinDeMoisFormeFermee(mensuel, r, k);
    Simplifie(c, CapitalFinDeMois(mensuel, r, k), r, mensuel * (Pow(1.0 + r, k) - 1.0));
  }

  lemma CapitalFinalPuissanceEntiere(data: Plan, pow: (real, real) -> real, annees: nat)
    requires data.annees == annees as real
    requires pow(1.0 + TauxMensuel(data.taux), Mois(data)) == Pow(1.0 + TauxMensuel(data.taux), 12 * annees)
    requires TauxMensuel(data.taux) != 0.0
    ensures CalculBrut(data, pow).capitalFinal * TauxMensuel(data.taux)
      == data.mensuel * (Pow(1.0 + TauxMensuel(data.taux), 12 * annees) - 1.0)
  {
  }

  lemma Simplifie(c: real, f: real, r: real, x: real)
    requires r != 0.0 && c * r == x && r * f == x
    ensures c == f
  {
    assert (c - f) * r == 0.0;
  }

  /** At zero rate the end-of-month recurrence is the sum of contributions. */
  lemma {:induction false} CapitalTauxNulFinDeMois(mensuel: real, k: nat)
    ensures CapitalFinDeMois(mensuel, 0.0, k) == mensuel * k as real
    decreases k
  {
    if k > 0 {
      CapitalTauxNulFinDeMois(mensuel, k - 1);
      assert mensuel * (k - 1) as real + mensuel == mensuel * k as real;
    }
  }

  /** The end-of-month recurrence holds at least the contributions. */
  lemma {:induction false} FinDeMoisAuMoinsVerse(mensuel: real, r: real, k: nat)
    requires mensuel >= 0.0 && r >= 0.0
    ensures CapitalFinDeMois(mensuel, r, k) >= mensuel * k as real
    decreases k
  {
    if k > 0 {
      FinDeMoisAuMoinsVerse(mensuel, r, k - 1);
      var f := CapitalFinDeMois(mensuel, r, k - 1);
      assert f * r >= 0.0;
      assert CapitalFinDeMois(mensuel, r, k) == f + f * r + mensuel;
      assert mensuel * (k - 1) as real + mensuel == mensuel * k as real;
    }
  }

  /** The end-of-month recurrence grows every month once anything is paid in. */
  lemma {:induction false} FinDeMoisCroissantDuree(mensuel: real, r: real, j: nat, k: nat)
    requires mensuel > 0.0 && r >= 0.0 && j < k
    ensures CapitalFinDeMois(mensuel, r, j) < CapitalFinDeMois(mensuel, r, k)
    decreases k
  {
    FinDeMoisAuMoinsVerse(mensuel, r, k - 1);
    var f := CapitalFinDeMois(mensuel, r, k - 1);
    assert f >= 0.0 by {
      assert mensuel * (k - 1) as real >= 0.0;
    }
    assert f * r >= 0.0;
    assert CapitalFinDeMois(mensuel, r, k) == f + f * r + mensuel;
    if j < k - 1 {
      FinDeMoisCroissantDuree(mensuel, r, j, k - 1);
    }
  }

  /** One month from balances a <= b: the larger contribution ends strictly ahead. */
  lemma MensuelPas(r: real, a: real, b: real, m1: real, m2: real, a2: real, b2: real)
    requires r >= 0.0 && a <= b && m1 < m2
    requires a2 == a * (1.0 + r) + m1 && b2 == b * (1.0 + r) + m2
    ensures a2 < b2
  {
    assert (b - a) * (1.0 + r) >= 0.0;
  }

  /** A larger monthly amount gives a strictly larger balance from the first month on. */
  lemma {:induction false} FinDeMoisCroissantMensuel(m1: real, m2: real, r: real, k: nat)
    requires m1 < m2 && r >= 0.0
    ensures CapitalFinDeMois(m1, r, k) <= CapitalFinDeMois(m2, r, k)
    ensures k >= 1 ==> CapitalFinDeMois(m1, r, k) < CapitalFinDeMois(m2, r, k)
    decreases k
  {
    if k > 0 {
      FinDeMoisCroissantMensuel(m1, m2, r, k - 1);
      MensuelPas(r, CapitalFinDeMois(m1, r, k - 1), CapitalFinDeMois(m2, r, k - 1), m1, m2,
                 CapitalFinDeMois(m1, r, k), CapitalFinDeMois(m2, r, k));
    }
  }

  /** One month from balances 0 <= a <= b at rates r1 <= r2: b stays ahead,
      strictly when a is positive and the rates differ. */
  lemma TauxPas(m: real, r1: real, r2: real, a: real, b: real, a2: real, b2: real)
    requires 0.0 <= r1 <= r2 && 0.0 <= a <= b
    requires a2 == a * (1.0 + r1) + m && b2 == b * (1.0 + r2) + m
    ensures a2 <= b2
    ensures a > 0.0 && r1 < r2 ==> a2 < b2
  {
    assert a * (r2 - r1) >= 0.0;
    assert (b - a) * (1.0 + r2) >= 0.0;
    assert b2 - a2 == a * (r2 - r1) + (b - a) * (1.0 + r2);
    if a > 0.0 && r1 < r2 {
      assert a * (r2 - r1) > 0.0;
    }
  }

  /** The end-of-month balance is never negative, and positive from the
      first month on once something is paid in. */
  lemma FinDeMoisPositif(mensuel: real, r: real, k: nat)
    requires mensuel >= 0.0 && r >= 0.0
    ensures CapitalFinDeMois(mensuel, r, k) >= 0.0
    ensures mensuel > 0.0 && k >= 1 ==> CapitalFinDeMois(mensuel, r, k) > 0.0
  {
    FinDeMoisAuMoinsVerse(mensuel, r, k);
    assert mensuel * k as real >= 0.0;
    if mensuel > 0.0 && k >= 1 {
      assert mensuel * k as real > 0.0;
    }
  }

  /** A higher rate never lowers the balance, and from the second month on
      it raises it strictly when something is paid in. */
  lemma {:induction false} FinDeMoisCroissantTaux(mensuel: real, r1: real, r2: real, k: nat)
    requires mensuel >= 0.0 && 0.0 <= r1 <= r2
    ensures CapitalFinDeMois(mensuel, r1, k) <= CapitalFinDeMois(mensuel, r2, k)
    ensures k >= 2 && mensuel > 0.0 && r1 < r2 ==> CapitalFinDeMois(mensuel, r1, k) < CapitalFinDeMois(mensuel, r2, k)
    decreases k
  {
    if k > 0 {
      FinDeMoisCroissantTaux(mensuel, r1, r2, k - 1);
      FinDeMoisPositif(mensuel, r1, k - 1);
      TauxPas(mensuel, r1, r2, CapitalFinDeMois(mensuel, r1, k - 1), CapitalFinDeMois(mensuel, r2, k - 1),
              CapitalFinDeMois(mensuel, r1, k), CapitalFinDeMois(mensuel, r2, k));
    }
  }

  /** The three monotonicities chained: more per month, more months and a
      higher rate never lower the balance, and any one of them strictly
      raises it once at least two months are paid in. */
  lemma FinDeMoisCroissant(m1: real, m2: real, r1: real, r2: real, k1: nat, k2: nat)
    requires 0.0 < m1 <= m2 && 0.0 <= r1 <= r2 && 2 <= k1 <= k2
    ensures CapitalFinDeMois(m1, r1, k1) <= CapitalFinDeMois(m2, r2, k2)
    ensures m1 < m2 || r1 < r2 || k1 < k2 ==> CapitalFinDeMois(m1, r1, k1) < CapitalFinDeMois(m2, r2, k2)
  {
    if m1 < m2 {
      FinDeMoisCroissantMensuel(m1, m2, r1, k1);
    }
    FinDeMoisCroissantTaux(m2, r1, r2, k1);
    if k1 < k2 {
      FinDeMoisCroissantDuree(m2, r2, k1, k2);
    }
  }

  /** Over whole years, the final capital of calculerInteretsComposes is
      non-decreasing in the monthly amount, the duration and the rate, and
      strictly increasing in each before rounding. */
  lemma CapitalFinalCroissant(d1: Plan, d2: Plan, pow: (real, real) -> real, a1: nat, a2: nat)
    requires ValiderInputs(d1) && ValiderInputs(d2)
    requires d1.annees == a1 as real && d2.annees == a2 as real
    requires pow(1.0 + TauxMensuel(d1.taux), Mois(d1)) == Pow(1.0 + TauxMensuel(d1.taux), 12 * a1)
    requires pow(1.0 + TauxMensuel(d2.taux), Mois(d2)) == Pow(1.0 + TauxMensuel(d2.taux), 12 * a2)
    requires d1.mensuel <= d2.mensuel && a1 <= a2 && d1.taux <= d2.taux
    ensures CalculBrut(d1, pow).capitalFinal <= CalculBrut(d2, pow).capitalFinal
    ensures d1 != d2 ==> CalculBrut(d1, pow).capitalFinal < CalculBrut(d2, pow).capitalFinal
    ensures CalculerInteretsComposes(d1, pow).capitalFinal <= CalculerInteretsComposes(d2, pow).capitalFinal
  {
    CapitalFinalFinDeMois(d1, pow, a1);
    CapitalFinalFinDeMois(d2, pow, a2);
    FinDeMoisCroissant(d1.mensuel, d2.mensuel, TauxMensuel(d1.taux), TauxMensuel(d2.taux), 12 * a1, 12 * a2);
    RoundMonotone(CalculBrut(d1, pow).capitalFinal, CalculBrut(d2, pow).capitalFinal);
  }

  /** Bounds that validerInputs guarantees to the two computations: between
      1 and 50 chart points, 12 to 600 months, a monthly rate of at most 1/60
      and at least 12000 FCFA contributed. */
  lemma ValiderInputsBornes(data: Plan, pow: (real, real) -> real)
    requires ValiderInputs(data)
    ensures 1 <= NbAnnees(data.annees) <= 50
    ensures 12.0 <= Mois(data) <= 600.0
    ensures 0.0 <= TauxMensuel(data.taux) <= 1.0 / 60.0
    ensures CalculBrut(data, pow).totalInvesti >= 12000.0
  {
    assert Mois(data) >= 12.0;
    assert data.mensuel * Mois(data) >= 1000.0 * Mois(data);
  }

  /** The growth chart does not end at the displayed final capital: the
      projection adds each contribution before the month's interest (an
      annuity due) while the closed form adds it after (an ordinary annuity),
      so the last point is the final capital times (1 + r) (CapitalFinalFinDeMois
      and CapitalDebutEtFinDeMois). For every valid
      whole-year plan at 0.2 % a year or more the two differ by at least two
      FCFA; the default plan (50000 FCFA, 15 years, 5 %) is one of them. */
  lemma DerniereAnneeDepasseCapitalFinal(data: Plan, pow: (real, real) -> real, annees: nat)
    requires ValiderInputs(data) && data.annees == annees as real && data.taux >= 0.2
    requires pow(1.0 + TauxMensuel(data.taux), Mois(data)) == Pow(1.0 + TauxMensuel(data.taux), 12 * annees)
    ensures var p := Courbe(SoldesAnnuels(data.mensuel, TauxMensuel(data.taux)), NbAnnees(data.annees));
      |p| == annees && p[annees - 1].capital >= CalculerInteretsComposes(data, pow).capitalFinal + 2
  {
    var r := TauxMensuel(data.taux);
    CapitalFinalFinDeMois(data, pow, annees);
    assert r >= 0.2 / 1200.0;
    AnnuiteDueDepasse(data.mensuel, r, 12 * annees);
    CourbePoints(SoldesAnnuels(data.mensuel, r), annees);
  }

  /** The arithmetic behind DerniereAnneeDepasseCapitalFinal: with at least
      1000 a month over at least 12 months at a monthly rate of 0.2/1200 or
      more, the interest of one extra month is worth at least 2. */
  lemma AnnuiteDueDepasse(m: real, r: real, n: nat)
    requires m >= 1000.0 && n >= 12 && r >= 0.2 / 1200.0
    ensures CapitalApres(m, r, n) == CapitalFinDeMois(m, r, n) * (1.0 + r)
    ensures Round(CapitalApres(m, r, n)) >= Round(CapitalFinDeMois(m, r, n)) + 2
  {
    CapitalDebutEtFinDeMois(m, r, n);
    var c := CapitalFinDeMois(m, r, n);
    FinDeMoisAuMoinsVerse(m, r, n);
    assert m * n as real >= 12000.0 by {
      assert m * n as real >= 1000.0 * n as real;
    }
    assert c * r >= 2.0 by {
      assert c >= 12000.0;
      assert c * r >= 12000.0 * r;
    }
    assert CapitalApres(m, r, n) == c + c * r;
    RoundMonotone(c + 2.0, c + c * r);
    RoundShift(c, 2);
  }

  /** The rounded balance the chart is evidently meant to show for a year:
      the grow-then-add recurrence after 12 months per year. */
  function SoldesFinDeMois(mensuel: real, r: real): nat -> int
  {
    (annee: nat) => Round(CapitalFinDeMois(mensuel, r, 12 * annee))
  }

  /** The projection as its year points are evidently meant to be: the same
      loop with the contribution added after the month's interest. */
  method GenererProjectionFinDeMois(data: Plan) returns (projection: seq<Point>)
    ensures projection == Courbe(SoldesFinDeMois(data.mensuel, TauxMensuel(data.taux)), NbAnnees(data.annees))
  {
    projection := [];
    var capital := 0.0;
    var tauxMensuel := data.taux / 100.0 / 12.0;
    var annee := 1;
    while annee as real <= data.annees
      invariant 1 <= annee <= NbAnnees(data.annees) + 1
      invariant capital == CapitalFinDeMois(data.mensuel, tauxMensuel, 12 * (annee - 1))
      invariant projection == Courbe(SoldesFinDeMois(data.mensuel, tauxMensuel), annee - 1)
      decreases NbAnnees(data.annees) + 1 - annee
    {
      var mois := 1;
      ghost var k: nat := 12 * (annee - 1);
      while mois <= 12
        invariant 1 <= mois <= 13 && k == 12 * (annee - 1) + mois - 1
        invariant capital == CapitalFinDeMois(data.mensuel, tauxMensuel, k)
      {
        CapitalFinDeMoisSuivant(data.mensuel, tauxMensuel, capital, k);
        capital := capital * (1.0 + tauxMensuel);
        capital := capital + data.mensuel;
        mois := mois + 1;
        k := k + 1;
      }
      assert Round(capital) == SoldesFinDeMois(data.mensuel, tauxMensuel)(annee);
      projection := projection + [Point(annee, Round(capital))];
      annee := annee + 1;
    }
  }

  /** The corrected chart's last point is exactly the displayed final capital
      for every whole-year plan, at any rate. */
  lemma FinDeMoisRejointCapitalFinal(data: Plan, pow: (real, real) -> real, annees: nat)
    requires data.annees == annees as real && annees >= 1
    requires pow(1.0 + TauxMensuel(data.taux), Mois(data)) == Pow(1.0 + TauxMensuel(data.taux), 12 * annees)
    ensures var p := Courbe(SoldesFinDeMois(data.mensuel, TauxMensuel(data.taux)), NbAnnees(data.annees));
      |p| == annees && p[annees - 1] == Point(annees, CalculerInteretsComposes(data, pow).capitalFinal)
  {
    CapitalFinalFinDeMois(data, pow, annees);
    CourbePoints(SoldesFinDeMois(data.mensuel, TauxMensuel(data.taux)), annees);
  }
}
