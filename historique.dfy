/** The list of saved calculations kept by sauvegarderResultats: newest
    first, trimmed by one entry once it grows past five. */
module Historique {
  import opened RealMath
  import opened Epargne

  /** One saved calculation: the time stamp, the plan and its results. */
  datatype Entree = Entree(timestamp: string, parametres: Plan, resultats: Totals)

  /** The length past which one entry is dropped. */
  const TailleMax: nat := 5

  /** How many of the old entries survive a save: all of them while there
      is room, otherwise all but the oldest. */
  function Gardees(n: nat): nat
  {
    if n < TailleMax then n else n - 1
  }

  /** The list after one save: the new entry in front of the surviving old
      entries, which keep their order. */
  function Enregistre(historique: seq<Entree>, entree: Entree): (h: seq<Entree>)
    ensures |h| >= 1 && h[0] == entree
    ensures |h| <= if |historique| < TailleMax then TailleMax else |historique|
  {
    [entree] + historique[..Gardees(|historique|)]
  }

  /** From a list of at most five entries a save gives min(n + 1, 5) entries:
      the new one, then the old ones in their order, the oldest dropped when
      there is no room. So a list within the bound stays within it. */
  lemma EnregistreBorne(historique: seq<Entree>, entree: Entree)
    requires |historique| <= TailleMax
    ensures var h := Enregistre(historique, entree);
      && |h| == (if |historique| < TailleMax then |historique| + 1 else TailleMax)
      && |h| <= TailleMax
      && h == [entree] + historique[..|h| - 1]
  {
  }

  /** Only one entry is ever dropped, so a list already longer than five
      (written by another version of the page, say) keeps its length. */
  lemma EnregistreLongue(historique: seq<Entree>, entree: Entree)
    requires |historique| > TailleMax
    ensures var h := Enregistre(historique, entree);
      |h| == |historique| && h[1..] == historique[..|historique| - 1]
  {
  }

  /** Saves of es[0], es[1], ... in that order. */
  function EnregistreTout(historique: seq<Entree>, es: seq<Entree>): seq<Entree>
    decreases |es|
  {
    if es == [] then historique else EnregistreTout(Enregistre(historique, es[0]), es[1..])
  }

  /** After a run of saves onto a list of at most five entries, the list
      holds the newest entries first, then the old ones, five at most. */
  lemma {:induction false} EnregistreToutOrdre(historique: seq<Entree>, es: seq<Entree>)
    requires |historique| <= TailleMax
    ensures var h := EnregistreTout(historique, es);
      && |h| == Min(|es| + |historique|, TailleMax)
      && forall i :: 0 <= i < |h| ==>
           h[i] == if i < |es| then es[|es| - 1 - i] else historique[i - |es|]
    decreases |es|
  {
    if es != [] {
      var suite := Enregistre(historique, es[0]);
      EnregistreBorne(historique, es[0]);
      EnregistreToutOrdre(suite, es[1..]);
      var h := EnregistreTout(historique, es);
      assert h == EnregistreTout(suite, es[1..]);
      forall i | 0 <= i < |h|
        ensures h[i] == if i < |es| then es[|es| - 1 - i] else historique[i - |es|]
      {
        if i < |es| - 1 {
          assert h[i] == es[1..][|es| - 2 - i];
        } else {
          assert h[i] == suite[i - (|es| - 1)];
        }
      }
    }
  }

  /** Starting from an empty store, the history holds the last five saves,
      most recent first. */
  lemma {:induction false} DerniersEnregistrements(es: seq<Entree>)
    ensures var h := EnregistreTout([], es);
      && |h| == Min(|es|, TailleMax)
      && forall i :: 0 <= i < |h| ==> h[i] == es[|es| - 1 - i]
  {
    EnregistreToutOrdre([], es);
  }
}
