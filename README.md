# Dashboard chart data and page state machines, in Dafny

This project models the two parts of the statistics dashboard's browser
scripts that hold real logic.

* **Chart data preparation** (`chart-init.js`). The loaded score table has
  category `columns`, player `rows` and a per-player `values` map. From it the
  model derives:
  * per-player totals;
  * the pie chart's labels, values and colours. Each active player (total > 0)
    gets one slice in `rows` order, coloured by position in an 18-colour
    palette. When some player is inactive (total 0), a black "Неактивные"
    slice follows, worth 1% of the active players' summed totals;
  * the pie tooltip's content, as a descriptor rather than markup;
  * the line chart's datasets: one per player with at least one positive
    score, padded to the column order with 0. A colour counter advances only
    for players that get a dataset.
* **Index state machines** (`script.js`).
  * The gallery carousel keeps `currentIndex`, the touch `startX` and the
    `isDragging` flag. It handles indicator clicks (`goToSlide`), next and
    previous with wrap-around, the arrow keys, and touch swipes past a
    50-pixel threshold. `updateCarousel` leaves exactly one slide and one
    indicator marked active.
  * The section navigation makes a clicked item the only active one. Its
    ArrowDown / ArrowUp handler moves the selection with wrap-around, using
    JavaScript's truncating `%`.

Files:

* `collections.dfy` (module `Collections`): the JavaScript builtins the
  scripts use. This is an order-preserving filter, the fold that sums an
  array, and the sum of every value of an object, each proved to do what
  JavaScript does.
* `chart_init.dfy` (module `ChartInit`): the score table, totals, pie slices,
  tooltip content and line datasets. The `forEach` loop of `createLineChart`
  is the imperative method `BuildLineDatasets`, proved equal to the
  reference definition `LineSeries`.
* `script.dfy` (module `Script`): `JsRem`, the index arithmetic, swipe
  classification and nav-key targets as functions. There are two classes:
  `Carousel`, which keeps the slide and indicator flags in arrays, and
  `NavMenu`, which keeps the nav items' flags. Each event handler is a method.

Some behaviour of the code that the model reproduces and proves, as written:

* `getTotal` sums every key of a player's map, including keys that are not
  listed in `columns`. Nothing in the code checks that scores are
  non-negative. A player whose total is negative is neither active nor
  inactive, so the pie drops that player. A player whose scores cancel out
  is inactive in the pie but still gets a line dataset, because the line
  chart tests "some value > 0" over the whole map
  (`NegativeScoresSplitViews`). When no score is negative, the line chart
  shows exactly the pie's active players, with the same colours
  (`LineLabelsMatchPie`).
* The line chart's activity test also covers keys that are not columns. A
  player whose only positive score sits under such a key gets a dataset
  whose points are all ≤ 0, since `playerValues[col] || 0` keeps a negative
  score. Under the non-negative data contract those points are all 0.
* The tooltip checks the label before it checks the index. An active player
  named "Mayors" shows the fixed Mayors group. An active player named
  "Неактивные" shows the inactive list.
* The nav keys handle the state with no active item (index −1). ArrowDown
  selects the first item. ArrowUp selects item `(n − 2) mod n`: the
  next-to-last item, or the only one when `n = 1`. In that case `-1 % 1` is
  `-0`, which indexes item 0. With no nav items at all, an arrow key throws
  (`allNavItems[NaN].click()`). The model returns this as `Thrown` and
  leaves the state unchanged.

## Model

| member | source | states |
|---|---|---|
| `Collections.Filter` | chart-init.js:51-52 | `filter` never yields more elements than it is given |
| `Collections.FilterIsStableSelection` | chart-init.js:51-52 | the filtered list's k-th element sits at the k-th selected position of the input; selected positions strictly increase; a position is selected exactly when its element passes the test |
| `Collections.FilterMembers` | chart-init.js:51-52 | an element survives `filter` exactly when it occurs in the input and passes the test |
| `Collections.SeqSum` | chart-init.js:60 | the left fold `values.reduce((a, b) => a + b, 0)`; it has no ensures, and `SeqSumNonNegative` states its property |
| `Collections.MapSum` | chart-init.js:33 | `Object.values(values).reduce((sum, val) => sum + val, 0)`; it has no ensures, and `MapSumRemove` and `MapSumPositive` state its properties |
| `Collections.FilterComplement` | chart-init.js:51-52 | two filters with complementary tests share the whole input between them |
| `Collections.SeqSumNonNegative` | chart-init.js:60 | summing non-negative totals gives a non-negative result |
| `Collections.MapSumRemove` | chart-init.js:33 | the sum of an object's values counts every key exactly once, whichever key is taken first, so the property order of `Object.values` does not matter |
| `Collections.MapSumPositive` | chart-init.js:33 | with non-negative values the sum is non-negative, and it is positive exactly when some value is positive |
| `ChartInit.GetTotal` | chart-init.js:30-34 | `getTotal`; it has no ensures, and `GetTotalCountsEveryKey` and `TotalNonNegative` state its properties |
| `ChartInit.GetTotalCountsEveryKey` | chart-init.js:30-34 | a player with no map has total 0; otherwise every key of the map adds its value, whether or not it is listed in `columns` |
| `ChartInit.TotalNonNegative` | chart-init.js:30-34 | under the non-negative data contract every total is at least 0 |
| `ChartInit.Players` | chart-init.js:46-49 | the `rows.map` to name and total; it has no ensures, and `ActiveInactiveSplit` states its properties |
| `ChartInit.Active` | chart-init.js:51 | the `filter` on total > 0; it has no ensures, and `ActiveInactiveSplit` states its properties |
| `ChartInit.Inactive` | chart-init.js:52 | the `filter` on total === 0; it has no ensures, and `ActiveInactiveSplit` states its properties |
| `ChartInit.ActiveInactiveSplit` | chart-init.js:46-52 | `active` is exactly the rows players with total > 0 and `inactive` those with total 0, each in rows order with its total; no player is in both; with non-negative scores they cover every row |
| `ChartInit.PieChart` | chart-init.js:54-64 | the pie's labels, values and colors arrays; it has no ensures, and `PieSlices`, `InactiveSliceIgnoresInactiveCount`, `PieValuesNonNegative` and `PieExample` state its properties |
| `ChartInit.PieSlices` | chart-init.js:54-64 | labels, values and colours have equal length, \|active\| plus one exactly when some player is inactive; slice i < \|active\| is active[i]'s name and total in colour COLORS[i mod 18]; the extra slice is last, labelled "Неактивные", black, and worth 1/100 of the active totals' sum |
| `ChartInit.InactiveSliceIgnoresInactiveCount` | chart-init.js:58-64 | with the same active players, any non-zero number of inactive players gives the same pie |
| `ChartInit.PieValuesNonNegative` | chart-init.js:54-64 | with non-negative scores no slice value is negative |
| `ChartInit.PieExample` | chart-init.js:46-64 | active totals 100 and 50 with three inactive players give slices 100, 50 and 1.5, the last labelled "Неактивные" |
| `ChartInit.Tooltip` | chart-init.js:128-161 | the tooltip's choice of content by label, then index; it has no ensures, and `TooltipForSlice` states its properties |
| `ChartInit.TooltipForSlice` | chart-init.js:122-161 | hovering any slice never reaches the undefined `active[index]`; the label is tested before the index, so a slice labelled "Mayors" lists the fixed group and one labelled "Неактивные" lists exactly the inactive players' names, even for an active player of that name; the last slice, when present, is the inactive list; every other slice is PlayerCard(active[index].name, active[index].total), the total it is drawn with |
| `ChartInit.HasActivity` | chart-init.js:187-191 | the player has a `values` entry with some value > 0; it has no ensures, and `LineDatasets` states its properties |
| `ChartInit.DataRow` | chart-init.js:193 | `columns.map(col => playerValues[col] \|\| 0)`; it has no ensures, and `LineDatasets` and `LineExample` state its properties |
| `ChartInit.SeriesOf` | chart-init.js:186-207 | reference definition of the datasets built for a list of names; it has no ensures, and `SeriesOfSnoc` states its properties |
| `ChartInit.LineSeries` | chart-init.js:183-207 | the datasets built for `rows`; it has no ensures, and `LineDatasets` and `BuildLineDatasets` state its properties |
| `ChartInit.SeriesOfSnoc` | chart-init.js:186-207 | one more player adds a dataset exactly when that player has activity, and it takes the next palette slot |
| `ChartInit.BuildLineDatasets` | chart-init.js:183-207 | the `forEach` loop, with its early returns and its `colorIndex` counter, builds exactly the reference datasets `LineSeries` |
| `ChartInit.LineDatasets` | chart-init.js:186-195 | one dataset per rows player whose map holds a positive value, in rows order, skipping all others; dataset k has the player's name, one point per column (the stored score or 0), and colour COLORS[k mod 18] |
| `ChartInit.LineExample` | chart-init.js:186-207 | a player with one positive score gets one dataset with that point and zeros elsewhere; a player whose only score is 0 gets none |
| `ChartInit.NegativeScoresSplitViews` | chart-init.js:186-191 | a player whose scores cancel out is inactive in the pie, yet the line chart draws that player |
| `ChartInit.LinePlayersAreActivePlayers` | chart-init.js:186-191 | under the non-negative data contract, the players that get a line dataset are exactly the pie's active players, in the same order |
| `ChartInit.LineLabelsMatchPie` | chart-init.js:184-195 | under that contract, line dataset k and pie slice k carry the same player and the same colour |
| `Script.JsRem` | script.js:252-259 | JavaScript's `%` with a positive divisor: the result lies strictly between −n and n, has the dividend's sign (or is 0), and differs from the dividend by a multiple of n |
| `Script.NextIndex` | script.js:253 | `(currentIndex + 1) % carouselSlides.length`; it has no ensures, and `StepsWrap`, `StepsUndo` and `NextTimesAdvances` state its properties |
| `Script.PrevIndex` | script.js:258 | `(currentIndex - 1 + carouselSlides.length) % carouselSlides.length`; it has no ensures, and `StepsWrap` and `StepsUndo` state its properties |
| `Script.StepsWrap` | script.js:252-259 | from an index in 0..n−1, `nextSlide` goes to i+1 (0 after the last) and `prevSlide` to i−1 (n−1 before the first); both stay in range |
| `Script.StepsUndo` | script.js:252-259 | `prevSlide` after `nextSlide` restores the index, and so does `nextSlide` after `prevSlide` |
| `Script.NextTimesAdvances` | script.js:252-255 | k consecutive `nextSlide` calls move the index to (i + k) mod n |
| `Script.FullCycle` | script.js:252-255 | n consecutive `nextSlide` calls return to the starting slide |
| `Script.SwipeOf` | script.js:289-302 | a touch asks for the next slide exactly when startX − endX > 50, for the previous one exactly when it is < −50, and for no change otherwise |
| `Script.NavKeyTarget` | script.js:165-176 | the keydown handler's choice of target; it has no ensures, and `NavKeys` states its properties |
| `Script.NavKeys` | script.js:160-176 | ArrowDown moves i to i+1 (0 after the last) and ArrowUp to i−1 (the last before the first); from no active item ArrowDown selects 0 and ArrowUp selects n−2 (0 when n = 1); targets are in range; other keys do nothing; with no items an arrow key throws |
| `Script.FirstActive` | script.js:161-163 | the index of the first active nav item, or −1 exactly when none is active |
| `Script.Carousel.constructor` | script.js:207-217 | the carousel starts at index 0, not dragging, with exactly slide 0 and indicator 0 active |
| `Script.Carousel.UpdateCarousel` | script.js:221-236 | afterwards exactly the slide and the indicator at `currentIndex` are active |
| `Script.Carousel.GoToSlide` | script.js:247-250 | an indicator click on index 0..n−1 makes that slide current and keeps the single-active invariant |
| `Script.Carousel.NextSlide` | script.js:252-255 | the index becomes (i+1) mod n and the invariant holds |
| `Script.Carousel.PrevSlide` | script.js:257-260 | the index becomes (i−1+n) mod n and the invariant holds |
| `Script.Carousel.KeyDown` | script.js:267-273 | ArrowLeft and ArrowRight move one slide back or forward, only while the gallery section is active; any other key changes nothing |
| `Script.Carousel.TouchStart` | script.js:279-282 | records the touch's start and starts dragging, leaving the slide unchanged |
| `Script.Carousel.TouchEnd` | script.js:289-302 | while dragging, moves to the next slide past +50, to the previous one past −50, and otherwise stays; always stops dragging; when not dragging it changes nothing |
| `Script.NavMenu.constructor` | script.js:4 | the nav items with the "active" flags the page starts with |
| `Script.NavMenu.Click` | script.js:31-37 | after a click exactly the clicked item is active |
| `Script.NavMenu.KeyDown` | script.js:160-176 | the key's target is computed from the first active item; when an item is selected, it becomes the only active one; otherwise every flag is unchanged |

## Left out

- `loadData` and `init` (chart-init.js:16-27, 254-265): the network fetch, the cache-busting timestamp, JSON parsing and logging are I/O. The model starts from an already loaded `ScoreTable`.
- Chart.js itself (chart-init.js:38-43, 66-90, 209-250): canvas lookup, chart construction and options are calls into a library that is not part of this model. Datasets keep only their player, data and colour. The display settings (transparent fill `color + '80'`, point radii, tension) are left out.
- Tooltip rendering (chart-init.js:96-121, 163-170): creating the element, hiding it when the tooltip's opacity is 0, the markup and avatars, and positioning are DOM work. Only the content choice is modelled.
- The `values` key for players named like built-in object properties (for example `__proto__`) resolves through JavaScript's prototype chain. The model treats every name as an ordinary key.
- JavaScript numbers are floating point. Scores are modelled as integers and the 1% factor as an exact `real`, so float rounding of the inactive slice value is not modelled.
- `GetTotal` and the pie functions are ghost. Summing a map needs a key choice, which Dafny only allows in ghost code. This does not weaken what is stated about them.
- `switchSection` (script.js:8-23): clearing the sections' flags and re-activating the target after a 100 ms `setTimeout` is timing plus DOM lookup by id. The nav click model stops at the nav items' flags.
- The `touchmove` handler (script.js:284-287) only calls `preventDefault`. It changes no state.
- The slide pixel offset (script.js:239-244), ripple sizing (89-114), header opacity and parallax (129-157), scroll-linked rotation (182-198) and all of `site-effects.js` are floating-point cosmetics on DOM styles.
- Card hover transitions, IntersectionObserver fades, activity-item staggering, CSS injection and console output (script.js:44-86, 116-126, 311-313) are timing and presentation.
- `Script.Carousel.constructor` takes the slides' initial "active" flags as a parameter, since they come from the page's HTML. Indicators are created by the script with the first one active (script.js:211-217).
- `Script.Carousel.GoToSlide` requires an index in 0..n−1. Its only callers are the indicator click handlers, whose indices are exactly 0..n−1 (script.js:211-215).
