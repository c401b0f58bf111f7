# Restaurant tables and tabs, modelled in Dafny

This project models the two pieces of logic in a small restaurant front end
that are more than rendering:

- **The table roster** (`Masalar.js`). The start screen fetches the table
  feed and turns it into the roster it shows:
  - every record gets a key: the trimmed table number (`masaNo`), or else the
    id (`masaId`) printed in decimal when it is truthy, or else `""`;
  - only the first record for each key is kept, in the order the keys first
    appear (a JavaScript `Map`);
  - the records are split into ordinary tables and tables whose number ends
    in `u`/`U`;
  - each part is stably sorted by the first run of digits in its number, and
    a number with no digits sorts as `Number.MAX_SAFE_INTEGER`;
  - the ordinary tables come first.
  A failed request, a null or non-array body, or a feed with a null element
  gives an empty roster.
- **The tab screen** (`MasaDetay.js`). This screen shows the open tab
  (`adisyon`) of one table and the product list (`urunler`). The actions are:
  - loading both;
  - adding one unit of a product;
  - taking one unit off a line;
  - closing the tab after a confirmation.

  Every change is sent to the order service and followed, when it succeeds,
  by a fresh fetch of the tab. The screen shows whatever tab the service
  returns. A failure at any point leaves the shown tab alone and raises an
  error message.

Modules:

- `Options`: `Option` and `Reply`, which is `Ok(value)` or `Fail`, the outcome
  of a service call.
- `Text`: JavaScript's `trim` over the exact ECMAScript whitespace set,
  `String(n)` for integers, and `parseNum` (the first digit run read as a
  decimal number).
- `Sorting`: a stable sort by a natural-number key, the behaviour ES2019
  requires of `Array.prototype.sort`.
- `Roster`: the key, the deduplication, the two groups, `Normalize` and
  `LoadRoster`.
- `RosterProperties`: the promises the roster keeps, plus a worked example.
- `TabSession`: the tab screen as a state machine. Service replies are
  parameters, and every action reports the requests it sent.

Every action of the tab screen is one step of the state machine. The code
keeps no queue, so two quick actions can interleave their requests; that
interleaving is not modelled (see "Left out"). Taking a unit off a line does
not check that the line is still on the tab.

## Model

| member | source | states |
|---|---|---|
| Text.Trim | src/pages/Masalar.js:20 | the result has no whitespace at either end and is no longer than the input |
| Text.TrimRemovesPadding | src/pages/Masalar.js:20 | trimming a whitespace-padded string that has no outer whitespace gives that string back |
| Text.TrimEmpty | src/pages/Masalar.js:20 | `trim` yields `""` exactly when the string is all whitespace |
| Text.IntToString | src/pages/Masalar.js:20 | `String(id)` is the canonical decimal numeral of the id (no leading zero unless it is "0"), after a `-` for negative ids |
| Text.CanonicalUnique | src/pages/Masalar.js:20 | two canonical numerals with the same value are the same string |
| Text.IntToStringIsTheNumeral | src/pages/Masalar.js:20 | `String(n)` of a natural number is its only canonical numeral |
| Text.ParseNum | src/pages/Masalar.js:25-28 | the value of the first maximal digit run of the number; `MAX_SAFE_INTEGER` when the number is missing or has no digit |
| Text.ParseNumExamples | src/pages/Masalar.js:25-28 | "12U" reads as 12, "x" and a missing number as `MAX_SAFE_INTEGER` |
| Text.ParseNumFirstRun | src/pages/Masalar.js:26-27 | leading zeros and later digit runs are ignored: "A007b3" reads as 7 |
| Roster.KeyMeaning | src/pages/Masalar.js:20 | a numbered table's key has no outer whitespace; a key is empty exactly when the number is blank, or, with no number, when the id is missing or 0; otherwise the key is the canonical numeral of the id, after a `-` for a negative id |
| Roster.KeyIgnoresPadding | src/pages/Masalar.js:20 | whitespace around a table number does not change its key |
| Roster.NumberAndIdShareKey | src/pages/Masalar.js:20-21 | a record numbered with the (possibly padded) numeral of a positive id and a record with no number and that id land on the same `Map` key |
| Roster.Dedup | src/pages/Masalar.js:18-23 | the result has one record per key of the feed, no key twice, each the first record of the feed with its key, in first-occurrence order |
| Roster.DedupOfDistinct | src/pages/Masalar.js:18-23 | a feed whose keys are already distinct passes through unchanged |
| Roster.KeysOfBound | src/pages/Masalar.js:18-23 | a feed has at most as many keys as records, and exactly as many when no key repeats |
| Roster.Records | src/pages/Masalar.js:19-20 | a feed yields its records exactly when no element is null or undefined, and then one record per element, in order |
| Roster.GroupMembers | src/pages/Masalar.js:29-30 | each filter keeps only records of its own group |
| Roster.GroupsPartition | src/pages/Masalar.js:29-30 | the two filters together keep every record exactly once |
| Roster.GroupsOfNormalize | src/pages/Masalar.js:29-31 | the ordinary and the `u` part of the roster are the sorted groups of the deduplicated feed |
| Roster.NormalizeKeys | src/pages/Masalar.js:18-31 | the roster rearranges the deduplicated feed, has distinct keys, the feed's key set, and one entry per key |
| Roster.LoadRoster | src/pages/Masalar.js:15-33 | a failed request, a null or non-array body, or a feed with a null element gives `[]`; otherwise no key repeats, every key of the feed is present, and the length is the number of distinct keys |
| Sorting.SortBy | src/pages/Masalar.js:29-30 | the result is sorted by the key, is a permutation of the input, and lists the entries of every key value in input order |
| Sorting.SortedStableUnique | src/pages/Masalar.js:29-30 | two sorted sequences that list every key value's entries in the same order are equal, so the stable sort's result is unique |
| Sorting.SortSortedIsIdentity | src/pages/Masalar.js:29-30 | sorting an already sorted sequence changes nothing |
| RosterProperties.NormalizeFirstOccurrence | src/pages/Masalar.js:19-23 | no two roster entries share a key; each entry is the first feed record with its key; the roster has one entry per distinct key |
| RosterProperties.NormalizePermutes | src/pages/Masalar.js:23-31 | partitioning and sorting neither add nor lose a record of the deduplicated feed |
| RosterProperties.NormalizeOrder | src/pages/Masalar.js:24-31 | every ordinary table precedes every `u` table; numbers never decrease within a group; entries with equal numbers keep their deduplicated-feed order |
| RosterProperties.DigitlessSortLast | src/pages/Masalar.js:25-30 | after a table without digits, its group holds only tables without digits or with a first digit run of at least `MAX_SAFE_INTEGER` |
| RosterProperties.NormalizeIsUnique | src/pages/Masalar.js:23-31 | any arrangement with those three ordering properties is the roster itself |
| RosterProperties.NormalizeIdempotent | src/pages/Masalar.js:18-31 | normalising the roster again returns it unchanged |
| RosterProperties.PaddedLabelStaysOrdinary | src/pages/Masalar.js:20-24 | "2U " keys as "2U" but is not a `u` table, because the group test reads the untrimmed number |
| RosterProperties.NormalizeExample | src/pages/Masalar.js:18-31 | the feed "3", "1", "2U", "10", "1U", "x" becomes "1", "3", "10", "x", "1U", "2U" |
| TabSession.Load | src/pages/MasaDetay.js:22-34 | both fetches are sent; tab and products are installed only when both succeed; otherwise they stay as they were and the load error is shown; loading ends either way |
| TabSession.Mutate | src/pages/MasaDetay.js:37-71 | a successful mutation is followed by exactly one tab fetch and a failed one by no request at all; the shown tab becomes the re-fetched tab only when both succeed; otherwise it is unchanged and the failure message is shown |
| TabSession.AddProduct | src/pages/MasaDetay.js:37-44 | sends the post of (table, product, quantity 1), then the tab fetch only when the post succeeded; on full success shows the re-fetched tab with "Ürün sepete eklendi", on any failure keeps the tab and shows "Ürün eklenemedi"; the product list and the loading flag are untouched |
| TabSession.RemoveOne | src/pages/MasaDetay.js:47-55 | sends the line's id with quantity `adet - 1`, then the tab fetch only when that succeeded; the shown tab is either unchanged or the re-fetched one, never edited locally; the product list and the loading flag are untouched |
| TabSession.CloseTab | src/pages/MasaDetay.js:63-73 | a declined confirmation sends nothing and changes nothing; a confirmed one sends the delete, then the tab fetch only when the delete succeeded; the return to the table list happens exactly when confirm, delete and re-fetch all succeed; the product list and the loading flag are untouched |
| TabSession.CloseNeedsLines | src/pages/MasaDetay.js:214-220 | a delete request can only come from a screen whose tab has lines |
| TabSession.Dispatch | src/pages/MasaDetay.js:236-243 | dismissing the message hides it, keeps its text and severity, leaves tab, products and loading flag alone, and sends nothing |
| TabSession.DispatchShowsFetchedTab | src/pages/MasaDetay.js:24-71 | an action changes the shown tab only to a tab the service just returned, and then a tab fetch was among its requests |
| TabSession.DispatchMutatesOnce | src/pages/MasaDetay.js:24-73 | an action sends at most one mutation, as its first request; loading, dismissing and a declined close send none |
| TabSession.RunShowsServiceTabs | src/pages/MasaDetay.js:16-73 | over any sequence of actions, the shown tab is the starting tab or one the service returned |
| TabSession.RunFromInitial | src/pages/MasaDetay.js:16 | from a fresh screen, the shown tab is the empty tab until a fetch delivers one |

## Left out

- Rendering: JSX, styling, the spinner and the back button. None of them
  changes the state that is modelled. The message's auto-hide timer
  (`src/pages/MasaDetay.js:238-239`) calls the same close handler as the
  dismiss button, so it is covered by the `SnackbarClosed` event.
- The `console.error` log of a failed load (`src/pages/MasaDetay.js:31`). It
  only writes to the console.
- Transport: the HTTP client, URLs and `src/config/api.js`. Each service call
  is an abstract `Ok`/`Fail` input.
- `src/pages/Rapor.js` and `src/App.js`. They only store fetched values and
  wire up routes.
- The 1500 ms delay before returning to the table list. `CloseTab` reports
  the return as scheduled (`goHome`).
- Interleaving of concurrent handlers. The code has no queue, and each handler
  is modelled as one atomic step.
- Money: `toFixed(2)` and float amounts. Amounts are carried as opaque `real`
  values and never computed.
- Text.ParseNum: a digit run is read as an unbounded natural number.
  JavaScript's `parseInt` loses precision for runs above 2^53, so ties
  between such runs can differ.
- Text.IntToString: ids are taken as integers of magnitude at most 2^53,
  where JavaScript's `String` prints the plain numeral. Above that, `String`
  prints the shortest digits that read back to the same double (2^60 prints
  as "1152921504606847000"), and from 10^21 on it uses exponent form; `Key`
  does not model either.
- Roster.Key: a table number delivered as a JSON number, rather than a
  string, is not modelled.
- Roster.LoadRoster: a non-array body is one case, `None`. That covers null,
  the other falsy values that `|| []` turns into an empty list, and the
  truthy non-array JSON values whose missing `forEach` throws into the
  `.catch`. A feed element that is a number, string or boolean rather than
  an object (where `masaNo` reads as undefined instead of throwing) is not
  modelled.
