# Vote-record page and waffle chart: a Dafny model

The site shows each legislative vote on a page of its own. Two pieces of
that page hold real data-shaping logic, and this project models both:

* **The vote page** (`src/templates/votelog-template.js`). It takes the
  page query's records as input: the vote event, every person's votelog
  record and the people table.
  - It left-joins each votelog record to the first person with the same
    `id`. The person's properties win on a clash. The result is the
    `combined` list.
  - `filterVote` splits `combined` into four groups by the value of each
    record's first votelog entry for the event: `"1"` approve, `"2"`
    disprove, `"3"` abstained, `"4"` absent.
  - It lists the supporting documents that have a link. Each one is
    labelled with its title, or with `เอกสาร` when it has no title.
* **The waffle chart** (`src/components/waffle.js`).
  - `split_array` cuts a list into chunks of a fixed size, in order.
  - `waffle` lays out one group as blocks of 100 cells. Each block is cut
    into quarters of 25 cells. A separator line follows when asked for.
  - `Waffle` draws the groups in order, with a separator after every group
    but the last.
  - `full_name` builds the name a cell's tooltip shows.

Files:

* `values.dfy` (module `Values`): JavaScript values as the query delivers
  them. Objects are `map<string, Value>`, and `undefined` is `None`. The
  file also defines truthiness and template-literal text.
* `lodash.dfy` (module `Lodash`): `_.find` and `_.filter`.
* `waffle.dfy` (module `WaffleChart`): `split_array`, `waffle`, `Waffle`,
  `full_name`, and the cell tooltip. The rendered markup is the datatype
  `Block = Hundred(quarters) | Separator`, with `Quarter(cells)` and
  `Cell(node, color, borderColor)`.
* `votelog.dfy` (module `Votelog`): the join, `filterVote` and the four
  groups, the page's chart of those groups, and the document list.

The join is the one step the page does by updating state: `combined`
starts empty and a `forEach` pushes one merged record per vote record.
`Combine` is that loop, proved equal to the function `Joined`. The other
steps are expressions and are modelled as functions.

Errors: the join never fails, but the grouping can. When a record has no
votelog entry for the event, `_.find` returns `undefined` and reading its
`.value` throws a `TypeError`. The model follows the code. `FilterVote` and
`Partition` return `TypeError(at)`, naming the first such record, and
return `Ok` exactly when every record has an entry. The chart can throw as
well: a vote record that matches no person has no `fields`, so reading
`node.fields.slug` for its cell throws (`UnmatchedCellThrows`).

## Model

| member | source | states |
|---|---|---|
| `Lodash.FindIndex` | src/templates/votelog-template.js:99 | the index `_.find` stops at is the first element that satisfies the predicate; none exactly when no element does |
| `Lodash.Find` | src/templates/votelog-template.js:116 | `_.find` gives the first element satisfying the predicate, or `undefined` exactly when none does |
| `Lodash.FilterIndices` | src/templates/votelog-template.js:98-100 | the kept positions are ascending, all satisfy the predicate, and include every position that does |
| `Lodash.Filter` | src/templates/votelog-template.js:98-100 | `_.filter` keeps the elements at those positions in order: every kept element satisfies the predicate, and every element that satisfies it is kept |
| `Values.NatText` | src/components/waffle.js:40 | a natural number prints as one or more decimal digits, with no leading zero, that denote the number itself |
| `Values.NumText` | src/components/waffle.js:40 | `String(n)` of an integer is the digits of its magnitude, preceded by `-` exactly when it is negative |
| `Values.Text` | src/components/waffle.js:40 | a template literal writes a missing property as `undefined`, `null` as `null`, a string as itself, and a number as `String(n)`, the decimal digits of its magnitude with a leading `-` exactly when negative |
| `Votelog.SameId` | src/templates/votelog-template.js:116 | `["id", votelog.id]` matches a person exactly when both have an `id` and the two are equal; a vote record without `id` matches nobody |
| `Votelog.Merge` | src/templates/votelog-template.js:117 | `{...votelog, ...matched}` has the keys of both, the person's values win on a clash, and spreading `undefined` leaves the vote record unchanged |
| `Votelog.Joined` | src/templates/votelog-template.js:114-118 | `combined` has one entry per vote record, and entry `i` is vote record `i` merged with the first person found for it |
| `Votelog.Combine` | src/templates/votelog-template.js:114-118 | the `forEach`/`push` loop leaves `combined` equal to `Joined`, so the length and order of the input are kept |
| `Votelog.JoinedEntry` | src/templates/votelog-template.js:116-117 | entry `i` is vote record `i` merged with the FIRST person of the same id, whose fields take precedence |
| `Votelog.JoinedUnmatched` | src/templates/votelog-template.js:116-117 | a vote record with no matching person appears unchanged, and no error is raised |
| `Votelog.VoteEntry` | src/templates/votelog-template.js:99 | `_.find(o.votelog, p => p.key === key)` is the first votelog entry with that key, and `undefined` exactly when there is no such entry |
| `Votelog.VotedFor` | src/templates/votelog-template.js:99 | `.value === value` holds only for a record that has an entry for the key, and then exactly when that first entry's `value` is the string `value` |
| `Votelog.OneCode` | src/templates/votelog-template.js:99 | the first entry holds one value, so a record voted at most one of the four codes, and exactly one when it has a code |
| `Votelog.FilterVote` | src/templates/votelog-template.js:97-100 | it throws at the first record with no votelog entry for the key, and succeeds exactly when every record has one; on success it returns exactly the records whose first entry has the value, in input order |
| `Votelog.Partition` | src/templates/votelog-template.js:119-122 | the four `filterVote` calls succeed exactly when every record has an entry for the event; otherwise the error names the first record without one |
| `Votelog.BucketMembership` | src/templates/votelog-template.js:119-122 | each group holds exactly the records with its code; a record with a code in `"1"`..`"4"` lands in exactly one group, any other record in none |
| `Votelog.VoteCounts` | src/templates/votelog-template.js:119-122 | the four code counts sum to at most the list length, and to exactly that when every record has one of the four codes |
| `Votelog.BucketSizes` | src/templates/votelog-template.js:119-122 | the group sizes sum to at most `combined`'s length, with equality when every value is one of the four codes |
| `Votelog.UnmatchedCellThrows` | src/components/waffle.js:62 | a vote record that matched no person and has no `fields` makes its chart cell's `node.fields.slug` read throw |
| `Votelog.VoteWaffle` | src/templates/votelog-template.js:246-265 | the page's chart has four groups; each of the first three is ceil(size / 100) hundred blocks followed by a separator, and the absent group has no separator |
| `Votelog.VoteWaffleLayout` | src/templates/votelog-template.js:246-265 | the page's chart shows approve, disprove, abstained, absent in that order, each voter once in its group, with three separators: none after the absent group |
| `Votelog.HasLink` | src/templates/votelog-template.js:321 | `doc => doc.link` keeps no document whose link is missing or `null`, and keeps every document whose link is an array or object |
| `Votelog.Label` | src/templates/votelog-template.js:352 | the label is `doc.title` when that is truthy and `เอกสาร` otherwise, so a button's caption is never empty |
| `Votelog.ShownDocuments` | src/templates/votelog-template.js:320-352 | one button per document with a truthy `link`, in original order; its caption is the title when that is truthy, otherwise `เอกสาร` |
| `WaffleChart.FullName` | src/components/waffle.js:40 | `full_name` is title, name, one space, last name, with no space between title and name |
| `WaffleChart.CeilDiv` | src/components/waffle.js:43 | `Math.ceil(n / d)` is the fewest groups of `d` that hold `n` items |
| `WaffleChart.Slice` | src/components/waffle.js:46 | `a.slice(start, end)` holds `min(end, length) - min(start, length)` elements, element `i` being `a[start + i]`, and none when `end < start` |
| `WaffleChart.Chunks` | src/components/waffle.js:43-46 | there are ceil(length / size) chunks, none exactly for an empty array, each of at most `size` elements |
| `WaffleChart.SplitArray` | src/components/waffle.js:42-47 | `split_array` returns ceil(length / size) results; result `i` is the callback applied to `a.slice(i*size, i*size+size)` and the index `i` |
| `WaffleChart.SplitArrayCount` | src/components/waffle.js:42-47 | `split_array` yields ceil(length / size) results, and none for an empty array |
| `WaffleChart.ChunkAt` | src/components/waffle.js:45-46 | chunk `i` is `a.slice(i*size, i*size+size)`, clamped to the length; every chunk but the last has exactly `size` elements, the last has 1 to `size` |
| `WaffleChart.SplitArrayAt` | src/components/waffle.js:45-47 | the callback gets chunk `i` together with the index `i` |
| `WaffleChart.FlattenChunksPrefix` | src/components/waffle.js:43-46 | the first `k` chunks joined together are the first `k*size` elements, or all of them when fewer |
| `WaffleChart.ChunksRoundTrip` | src/components/waffle.js:43-46 | joining the chunks back together, before the callback runs, gives the input exactly |
| `WaffleChart.CellTooltip` | src/components/waffle.js:57-64 | a cell's tooltip links to `node.fields.slug` and shows `full_name(node)`; it throws exactly when `node.fields` is `undefined` or `null` |
| `WaffleChart.WaffleGroup` | src/components/waffle.js:49-75 | `waffle` returns ceil(length / 100) hundred blocks, followed by one separator, as the last element, exactly when asked for |
| `WaffleChart.QuarterCells` | src/components/waffle.js:52-67 | a quarter has one cell per element of its chunk, in order, every cell in the group's colour and border colour |
| `WaffleChart.HundredBlock` | src/components/waffle.js:50-69 | a hundred block holds ceil(length / 25) quarters, at most four for a chunk of at most 100, every cell in the group's colours |
| `WaffleChart.HundredNodes` | src/components/waffle.js:50-69 | a hundred block's quarters, read in order, hold its chunk exactly |
| `WaffleChart.HundredsNodes` | src/components/waffle.js:50-70 | the hundred blocks of a group, read in order, hold the group's data exactly |
| `WaffleChart.NodesWithSeparator` | src/components/waffle.js:72 | the pushed separator adds no voters |
| `WaffleChart.WaffleGroupNodes` | src/components/waffle.js:50-72 | reading every quarter of every block of `waffle` in order gives back `data` exactly |
| `WaffleChart.HundredShape` | src/components/waffle.js:50-69 | a block built from 1 to 100 elements has 1 to 4 quarters of 1 to 25 cells, all in the group's colours |
| `WaffleChart.WaffleGroupShape` | src/components/waffle.js:50-70 | every hundred block of `waffle` has at most 4 quarters of 1 to 25 cells, all in the given colour and border colour |
| `WaffleChart.WaffleGroupSeparators` | src/components/waffle.js:72 | `waffle` draws one separator when asked to and none otherwise |
| `WaffleChart.WaffleSeparatorsPrefix` | src/components/waffle.js:79-85 | the first `k` groups hold one separator each, except the last group of the chart |
| `WaffleChart.Waffle` | src/components/waffle.js:77-88 | one `waffle` per group: group `i` has ceil(size / 100) hundred blocks, then a separator as its last element exactly when it is not the last group |
| `WaffleChart.WaffleLayout` | src/components/waffle.js:77-88 | groups are drawn in order; group `i` shows exactly `data[i]` in `colors[i]` and `borderColors[i]` holds a separator iff it is not the last group, and then as its last element; in all there is one separator fewer than there are groups, and none when there are no groups |

## Left out

- The GraphQL page query (src/templates/votelog-template.js:16-78) is data loading. Its results are the inputs: the vote event's id, and the vote records, people and documents as lists of records.
- `calculateVoteLog` (src/templates/votelog-template.js:13, 112) is defined in `src/utils`, outside the two modelled files. It is not modelled, and neither are the `passed` and `total_voter` it returns.
- Markup and styling are left out: JSX structure, CSS-in-JS (`cellStyle`, `tooltipTextStyle`, `cssSection`), `gatsby-image`, and the `Layout`, `SEO`, `ExternalLink`, `VoterList` and `VoteLogLegend` components. Output is only the abstract `Block`/`Quarter`/`Cell` tree and `DocumentLink`.
- React keys (`key={hi}`, `key={qi}`, `key={node.id}`, `key={doc.link}`, `key="line"`) are rendering hints and are not modelled. So the callbacks ignore their index.
- The `{ node: p }` wrapper that the page puts around each voter, and that `waffle` destructures again, is not modelled. Cells hold the voter record directly.
- WaffleChart.WaffleGroup: the `result.push` of the separator is modelled as appending to a value. The array is local and freshly built, so no state escapes.
- WaffleChart.WaffleGroup: a throwing cell tooltip does not make the whole group throw in the model. `CellTooltip` models that error on its own.
- Votelog.VoteEntry: a `votelog` that is not an array counts as having no entries. lodash would walk the values of an object. A `null` element inside the array counts as a non-match, although reading `.key` on it would throw.
- Votelog.SameId: the match uses plain structural equality on `id`. lodash's `matchesProperty` compares object-valued ids partially; string ids are unaffected.
- Votelog.ShownDocuments: a vote event whose `document` is `null` would make `.filter` throw, and so would a `null` element of that list when `doc => doc.link` reads its `link`. The model takes the document list as a list of records, so neither error is modelled.
- WaffleChart.SplitArray: `split_array` requires `size > 0`. Both callers pass 100 or 25, and a zero size would make `Array(...)` throw a `RangeError`.
- Numbers are integers: no floating point and no `NaN`. This matters only for the truthiness and text of numeric properties.
- Values.NatText: prints every digit. JavaScript writes integers of magnitude 10^21 or more in exponent form (`1e+21`), which the model does not reproduce; ids, names and titles are strings, so no such number reaches a template literal here.
