/** The CalculateurEpargneFCFA object: the theme it toggles, the saved
    history it updates, and the validate-then-compute flow run on every
    input change. */
module Calculateur {
  import opened Epargne
  import opened Historique
  import opened Projection

  /** The theme after one toggle: "dark" becomes "light", anything else
      (including a value read back from storage) becomes "dark". */
  function Toggled(theme: string): (t: string)
    ensures t == "light" <==> theme == "dark"
    ensures t == "dark" <==> theme != "dark"
  {
    if theme == "dark" then "light" else "dark"
  }

  /** Two toggles restore the theme exactly when it was one of the two
      known themes; any other stored value ends up "light". */
  lemma ToggleDeuxFois(theme: string)
    ensures Toggled(Toggled(theme)) == theme <==> theme == "dark" || theme == "light"
    ensures Toggled(Toggled(theme)) == (if theme == "dark" then "dark" else "light")
  {
  }

  class CalculateurEpargneFCFA {
    /** The current colour theme, "dark" or "light". */
    var theme: string
    /** The saved calculations, newest first, as kept in local storage. */
    var historique: seq<Entree>

    /** A fresh calculator starts dark, over the history already stored,
        and init() ends with a first calculerEpargne on the plan in the form
        (the saved parameters or the defaults): a valid plan is saved once. */
    constructor(stocke: seq<Entree>, data: Plan, pow: (real, real) -> real, horodatage: string)
      ensures theme == "dark"
      ensures ValiderInputs(data) ==>
        historique == Enregistre(stocke, Entree(horodatage, data, CalculerInteretsComposes(data, pow)))
      ensures !ValiderInputs(data) ==> historique == stocke
    {
      theme := "dark";
      historique := stocke;
      new;
      var affiche, conseil, projection := CalculerEpargne(data, pow, horodatage);
    }

    /** toggleTheme: flips the theme and leaves the history alone. */
    method ToggleTheme()
      modifies this
      ensures theme == Toggled(old(theme))
      ensures historique == old(historique)
    {
      theme := if theme == "dark" then "light" else "dark";
    }

    /** sauvegarderResultats: puts the entry in front and, when the list
        has grown past five, pops the last one. */
    method SauvegarderResultats(entree: Entree)
      modifies this
      ensures historique == Enregistre(old(historique), entree)
      ensures theme == old(theme)
    {
      var h := historique;
      h := [entree] + h;
      if |h| > TailleMax {
        h := h[..|h| - 1];
      }
      historique := h;
    }

    /** calculerEpargne: rejected input shows four zeros, draws nothing (the
        returned chart is empty: the chart already on screen is not
        redrawn, not cleared) and saves nothing; accepted input shows the rounded totals, draws the
        year-by-year chart and saves the totals. Either way the insight shown
        is the tier of what is displayed. */
    method CalculerEpargne(data: Plan, pow: (real, real) -> real, horodatage: string)
      returns (affiche: Totals, conseil: Conseil, projection: seq<Point>)
      modifies this
      ensures !ValiderInputs(data) ==>
        && affiche == Zero && conseil == SansInterets && projection == []
        && historique == old(historique)
      ensures ValiderInputs(data) ==>
        && affiche == CalculerInteretsComposes(data, pow)
        && projection == Courbe(SoldesAnnuels(data.mensuel, TauxMensuel(data.taux)), NbAnnees(data.annees))
        && historique == Enregistre(old(historique), Entree(horodatage, data, affiche))
      ensures conseil == AfficherConseil(affiche.interets, affiche.pourcentageInterets)
      ensures theme == old(theme)
    {
      if !ValiderInputs(data) {
        affiche := Zero;
        conseil := AfficherConseil(0, 0.0);
        projection := [];
        return;
      }
      affiche := CalculerInteretsComposes(data, pow);
      conseil := AfficherConseil(affiche.interets, affiche.pourcentageInterets);
      projection := GenererProjection(data);
      SauvegarderResultats(Entree(horodatage, data, affiche));
    }
  }
}
