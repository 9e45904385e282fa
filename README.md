# CalculateurEpargneFCFA — a verified model of the savings engine

CalculateurEpargneFCFA is a browser savings calculator. The user enters a
monthly contribution in FCFA, a duration in years and an annual rate. On
every input change the page does four things:

- it validates the three fields;
- it computes the totals with the closed-form future value of an ordinary
  annuity: contributed, interest, final capital and interest share;
- it draws a year-by-year chart from a month-by-month simulation;
- it shows one of four insight messages and saves the result at the front
  of a history, which is trimmed by one entry once it grows past five.

The page also has a dark/light theme toggle. It converts its `#RRGGBB`
palette (section 5.2 of CSS Color Module Level 4) into `rgba(...)` colours
with `parseInt(…, 16)`.

This project models that computational core in Dafny and proves its
properties. It has six modules:

- `RealMath` (`real_math.dfy`): `Math.round` on exact reals, and a power
  with a whole exponent, together with Bernoulli's inequality.
- `Epargne` (`epargne.dfy`): the plan, `validerInputs`,
  `calculerInteretsComposes` and the tier choice of `afficherConseil`.
- `Projection` (`projection.dfy`): `genererProjection` as a method with its
  nested year/month loop, proved against a recursive specification of the
  chart. It also relates the chart to the closed form (see Findings).
- `Historique` (`historique.dfy`): the list update of `sauvegarderResultats`,
  which puts the new entry in front and pops once past five.
- `Couleur` (`couleur.dfy`): `hexToRgba`, over a model of ECMAScript
  `parseInt(s, 16)` and of `String.prototype.slice` counted in code points
  (see Left out).
- `Calculateur` (`calculateur.dfy`): the class itself. It has the `theme`
  and history fields, `toggleTheme`, `sauvegarderResultats`, and the
  validate-then-compute flow of `calculerEpargne`.

The model makes these choices:

- JavaScript numbers are exact reals.
- `Math.round(x)` is `⌊x + 1/2⌋`.
- `Math.pow` is a parameter `pow` of the totals. The month count
  `annees × 12` can be fractional, so no whole-number power can stand for
  it. Lemmas that need its value assume that, at the one point used, it
  agrees with the whole power `Pow`, or that it satisfies Bernoulli's
  inequality.
- The clock time stamp is a parameter.
- The history field stands for the list kept in local storage.

## Model

| member | source | states |
|---|---|---|
| RealMath.Round | script.js:227-230 | Math.round gives the integer n with n − 1/2 ≤ x < n + 1/2, so ties go up |
| RealMath.Pow | script.js:218 | a whole power of a base ≥ 1 is ≥ 1, and one of a positive base is positive |
| RealMath.PowBernoulli | script.js:218 | (1 + r)^n ≥ 1 + n r for r ≥ 0, which is what keeps the annuity factor at or above n |
| Epargne.ValiderInputs | script.js:199-207 | a plan is accepted iff it pays at least 1000 FCFA a month over 12 to 600 months at a monthly rate between 0 and 1/60 |
| Epargne.CalculBrut | script.js:210-224 | totalInvesti = mensuel × mois; at a zero monthly rate capitalFinal = totalInvesti, otherwise capitalFinal × r = mensuel × (pow(1 + r, mois) − 1); capitalFinal = totalInvesti + interets; the share satisfies share × capitalFinal = interets × 100 when capitalFinal > 0 and is 0 otherwise; at taux 0 the interest and the share are 0 |
| Epargne.CalculerInteretsComposes | script.js:209-232 | the rounded totals keep the zero-rate identities (capitalFinal = totalInvesti, interets = 0, share 0), and rounding each figure separately breaks capitalFinal = totalInvesti + interets by at most one unit |
| Epargne.PartInteretsBornee | script.js:221-231 | for a valid plan whose pow(1 + r, mois) obeys Bernoulli's inequality (≥ 1 + r × mois), the interest is never negative and the share lies in [0, 100], both before and after rounding |
| Epargne.PartInteretsBorneeAnneesEntieres | script.js:213-231 | for every valid whole-year plan, with pow the whole power, the interest is never negative and the share lies in [0, 100], before and after rounding, with no further assumption (Bernoulli's inequality is proved by RealMath.PowBernoulli) |
| Epargne.CapitalFinalCroissantMensuel | script.js:213-219 | for a valid plan whose growth factor obeys Bernoulli's inequality, a larger monthly amount gives a strictly larger unrounded capitalFinal, at any duration |
| Epargne.AfficherConseil | script.js:266-274 | exactly one of four tiers: no-interest iff interets = 0; otherwise below 25, 25 up to (not including) 50, or 50 and above, each as an if-and-only-if |
| Epargne.ConseilMonotone | script.js:266-274 | when there is interest, a larger share never gives a lower tier |
| Epargne.ConseilTauxNul | script.js:214-215 | a valid plan at zero rate always gets the no-interest message |
| Projection.NbAnnees | script.js:435 | the year loop runs ⌊annees⌋ times, and not at all iff annees < 1 |
| Projection.CapitalApres | script.js:437-438 | the month loop's balance: contribution added first, then the month's interest on the whole balance; its behaviour is stated by CapitalCroissant, CapitalTauxNul and CapitalDebutEtFinDeMois |
| Projection.Courbe | script.js:430-448 | a chart of n years has exactly n points |
| Projection.CourbePoints | script.js:441-446 | point i carries year i + 1 and that year's balance, so the years run 1, 2, …, n in increasing order |
| Projection.GenererProjection | script.js:430-448 | the nested loop returns exactly the chart of ⌊annees⌋ years whose year-k point is the add-then-grow balance after 12 k months, rounded |
| Projection.CapitalCroissant | script.js:437-439 | with mensuel ≥ 0 and r ≥ 0 the unrounded balance is non-negative and never decreases from one month to a later one |
| Projection.ProjectionCroissante | script.js:435-446 | with mensuel ≥ 0 and r ≥ 0 the chart's points never go down from one year to a later one |
| Projection.CapitalTauxNul | script.js:437-439 | at zero rate the balance after k months is mensuel × k |
| Projection.ProjectionTauxNul | script.js:435-446 | at zero rate the year-k point is round(mensuel × 12 × k) |
| Projection.CapitalDebutEtFinDeMois | script.js:437-439 | adding the contribution before the month's interest gives exactly (1 + r) times the balance of adding it after |
| Projection.CapitalFinDeMoisFormeFermee | script.js:216-219 | the grow-then-add balance F satisfies r × F(k) = mensuel × ((1 + r)^k − 1), the closed form of the ordinary annuity |
| Projection.CapitalFinalFinDeMois | script.js:213-219 | over whole years, and at any rate including zero, the closed-form capitalFinal is the grow-then-add balance after 12 × annees months |
| Projection.FinDeMoisCroissantDuree | script.js:213-219 | with mensuel > 0 and r ≥ 0 the grow-then-add balance strictly increases with the number of months |
| Projection.FinDeMoisCroissantMensuel | script.js:213-219 | at r ≥ 0 a larger monthly amount gives a strictly larger grow-then-add balance from the first month on |
| Projection.FinDeMoisPositif | script.js:213-219 | with mensuel ≥ 0 and r ≥ 0 the grow-then-add balance is never negative, and positive from the first month on when mensuel > 0 |
| Projection.FinDeMoisCroissantTaux | script.js:213-219 | with mensuel ≥ 0 a higher rate never lowers the grow-then-add balance, and strictly raises it from the second month on when mensuel > 0 |
| Projection.FinDeMoisCroissant | script.js:213-219 | more per month, more months and a higher rate together never lower the balance, and any one strictly larger raises it (from two months on) |
| Projection.CapitalFinalCroissant | script.js:209-232 | over whole years, capitalFinal is strictly increasing in the monthly amount, the duration and the rate before rounding, and non-decreasing after rounding |
| Projection.ValiderInputsBornes | script.js:200 | a plan that passes validation has 1 to 50 chart points, 12 to 600 months, a monthly rate in [0, 1/60] and at least 12000 FCFA contributed |
| Projection.AnnuiteDueDepasse | script.js:437-439 | with at least 1000 a month over at least 12 months at a monthly rate of at least 0.2/1200, the add-then-grow balance rounds at least 2 above the grow-then-add one |
| Projection.DerniereAnneeDepasseCapitalFinal | script.js:435-446 | for every valid whole-year plan at 0.2 % or more, the last chart point is at least 2 FCFA above the displayed capitalFinal |
| Projection.GenererProjectionFinDeMois | script.js:430-448 | the corrected loop (interest, then contribution) returns the chart whose year-k point is the grow-then-add balance after 12 k months, rounded |
| Projection.FinDeMoisRejointCapitalFinal | script.js:213-231 | the corrected chart has one point per year, and its last point is exactly the displayed capitalFinal for every whole-year plan |
| Historique.Enregistre | script.js:97-100 | after a save the new entry is first, and the list is at most five long, or no longer than before when it was already over five |
| Historique.EnregistreBorne | script.js:97-100 | from at most five entries, a save gives min(n + 1, 5) entries: the new one, then the old ones in their order with the oldest dropped when there is no room |
| Historique.EnregistreLongue | script.js:97-100 | a list already longer than five loses only its last entry, so its length does not change |
| Historique.EnregistreToutOrdre | script.js:84-100 | after a run of saves onto at most five entries, the list holds the newest saves first, then the old entries, min(total, 5) in all |
| Historique.DerniersEnregistrements | script.js:84-100 | from an empty store, the history is the last five saves, most recent first |
| Couleur.SansBlancs | script.js:451-453 | parseInt's white-space skip removes a prefix and stops at a non-white character |
| Couleur.SansBlancsSuffixe | script.js:451-453 | what remains after skipping white space is a suffix of the input |
| Couleur.SansBlancsPrefixe | script.js:451-453 | everything skipped is white space |
| Couleur.Lire | script.js:451-453 | parseInt's digit loop never yields less than the value it started from |
| Couleur.LireValeur | script.js:451-453 | reading the digits of s after those of p gives the number that p + s denotes, most significant digit first |
| Couleur.ParseIntChiffres | script.js:451-453 | a non-empty run of hexadecimal digits parses in radix 16 to the number it denotes |
| Couleur.ParseIntHex | script.js:451-453 | parseInt(s, 16) is NaN iff no hexadecimal digit follows the white space, sign and 0x prefix; otherwise its sign is that of the sign character |
| Couleur.Slice | script.js:451-453 | slice of an in-range interval is the subsequence, an end past the length is clamped to it, and an empty or out-of-range interval gives the empty string |
| Couleur.ParseIntOctet | script.js:451-453 | two hexadecimal digits a, b parse to 16 a + b |
| Couleur.Canal | script.js:451-453 | the slice at positions i and i + 1 parses to the byte its two digits denote |
| Couleur.HexToRgba | script.js:450-455 | the alpha passes through unchanged |
| Couleur.HexToRgbaCouleur | script.js:450-455 | for a `#RRGGBB` colour each channel is the byte its two digits denote |
| Couleur.HexToRgbaFormatHex | script.js:450-455 | hexToRgba reads back the three bytes a `#rrggbb` text was written from |
| Couleur.HexToRgbaFormeCourte | script.js:450-455 | the shorthand `#abc` is not expanded: red 0xab, green 0xc, and blue NaN |
| Couleur.HexToRgbaCapital | script.js:354 | the capital series tint `#8b5cf6` at 0.1 is rgba(139, 92, 246, 0.1) |
| Calculateur.Toggled | script.js:127 | the next theme is "light" iff the theme is "dark", and "dark" otherwise |
| Calculateur.ToggleDeuxFois | script.js:127 | two toggles restore the theme iff it is "dark" or "light"; any other value settles on "light" after two toggles |
| Calculateur.CalculateurEpargneFCFA.constructor | script.js:3-36 | a new calculator starts with the dark theme over the stored history, and init()'s final calculerEpargne saves the form's plan once when it is valid and nothing otherwise |
| Calculateur.CalculateurEpargneFCFA.ToggleTheme | script.js:126-130 | the theme becomes Toggled of the old theme, and the history is unchanged |
| Calculateur.CalculateurEpargneFCFA.SauvegarderResultats | script.js:84-103 | the history becomes Enregistre of the old history and the entry, and the theme is unchanged |
| Calculateur.CalculateurEpargneFCFA.CalculerEpargne | script.js:171-189 | invalid input shows (0, 0, 0, 0) with the no-interest tier, draws no chart and leaves the history alone; valid input shows the rounded totals, draws exactly the chart GenererProjection computes (the add-then-grow loop as written) and saves exactly one entry; the tier is always that of the displayed figures |

## Left out

- The DOM reads and writes are left out, and so is the result animation. They are presentation only.
- The console output is left out: the `console.warn` of `validerInputs` on rejected input and the `console.log`/`console.error` calls of `init`, `sauvegarderParametres` and `chargerParametres`. They change no state the model keeps.
  `getValeursInput`'s `parseFloat(…) || 0` defaulting is left out too. The model receives the parsed `Plan`.
- Local storage, JSON, and the `storage`/`beforeunload` event wiring are left out. The history is a field of the class, and the model does not read it back from storage before each save.
- `genererIdUtilisateur` is left out because it uses `Math.random`. `initTheme` is left out because it queries the environment (`matchMedia` and the stored theme). The constructor does not call them.
- Calculateur.CalculateurEpargneFCFA.constructor: of `init()` only the final `calculerEpargne` is modelled. `chargerParametres` (which can also set the theme from the saved parameters), `bindEvents` and `initCharts` are not run; the plan they would leave in the form is the parameter `data`, and the theme stays "dark".
- Chart.js is left out (`initWealthChart`, `initProgressChart`, `mettreAJour*Chart`). Those are calls into a library that is not modelled.
- `Intl.NumberFormat` in `formaterMontant` and the `mettreAJourDetails` averages are left out. They are display formatting.
- Calculateur.CalculateurEpargneFCFA.ToggleTheme: `applyTheme` and `updateChartsTheme` are not modelled. When the charts exist, `updateChartsTheme` runs `calculerEpargne` again, once per chart, and so can save the same result to the history twice.
- Calculateur.CalculateurEpargneFCFA.SauvegarderResultats: the saved `parametres` are the parsed `Plan`, not the three raw field strings. The `new Date().toISOString()` time stamp is a parameter.
- Epargne.CalculBrut: `Math.pow(1 + r, mois)` is the parameter `pow`. Its value is only pinned down where a lemma assumes it, because `mois` may be fractional.
- Epargne.CalculerInteretsComposes: IEEE-754 double rounding is not modelled. The share's rounding to two decimals is computed exactly on reals, as `Round(share × 100) / 100`.
- Couleur.HexToRgba: positions are counted in characters (Unicode code points), not in the UTF-16 code units `String.prototype.slice` counts; a colour whose text holds a character outside the Basic Multilingual Plane before position 7 is read differently (for `"\u{1F600}8b5cf6"` the page gets NaN for red, the model 139).
- Couleur.HexToRgba: it returns the three parsed channels and the alpha, not the `rgba(r, g, b, alpha)` text. The text depends on `Number.prototype.toString`.
- The chart has ⌊annees⌋ points, as the loop `annee <= data.annees` gives; a fractional part of the duration draws no point.

## Findings

The page shows the final capital next to a growth chart whose last point,
for a whole-year duration, is the balance after the same number of months.
The two disagree. The month loop in `genererProjection` adds the
contribution before the month's interest, which is an annuity due. The
closed form in `calculerInteretsComposes` is an ordinary annuity. So, for a
whole-year duration and before rounding, the last point is exactly the final
capital times (1 + r). For a fractional duration the two are not comparable
at all: with 1.5 years the chart stops at year 1, while capitalFinal covers
18 months.

Either side can be changed to make them agree: the loop can apply the
interest before adding the contribution (grow-then-add), or the closed form
can be multiplied by (1 + r). The model proves the first fix; the second
would change every total the page displays. The model of `calculerEpargne`
keeps the chart as the code draws it.

| source | as written | input that shows it | evidently intended | confidence | as-written member | corrected member |
|---|---|---|---|---|---|---|
| script.js:437-439 | each month adds the contribution first and then applies the month's interest (an annuity due), while capitalFinal is the ordinary-annuity closed form | any valid whole-year plan at 0.2 % or more, e.g. 50000 FCFA for 15 years at 5 %: the last point exceeds the displayed capitalFinal by r × capitalFinal, about 55685 FCFA | chart and capitalFinal agree; shown for the fix that applies the interest before the contribution, so that the chart ends at the displayed capitalFinal | not executed; proved on exact reals | Projection.DerniereAnneeDepasseCapitalFinal | Projection.FinDeMoisRejointCapitalFinal |
