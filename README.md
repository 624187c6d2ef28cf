# A location-based coin game: a Dafny model of the board and the game loop

The game places coin "pits" on a grid of tiles around a fixed anchor
(Merrill College, latitude 36.9995, longitude -122.0533, tiles of 0.0001
degrees). Its core is small and imperative:

- `Board` (src/board.ts) interns grid cells. A position, scaled by 10000
  and rounded, is looked up under the key `x_y`. The stored cell is
  returned when the key is present. Otherwise a new cell is stored and
  returned. `clearBoard` empties the table.
- `Cache` (src/board.ts) is the coin ledger of one cell. `addCoin` appends
  a coin whose serial is one more than the last serial (0 for the first).
  It also pushes the token `x#y#serial` and sets `description` to the
  comma-join of the tokens. `format` lists one display string per coin.
  `toMomento` returns `description`. `fromMomento` rebuilds the tokens and
  the coins from a memento string.
- src/main.ts keeps a table of caches keyed by cell label, a global
  `points` counter and one `value` counter per open popup. `makePit`
  interns a tile's cell and stores a new cache under its key. Opening a
  pit's popup adds `floor(luck(...) * 100)` coins to that cache. Collect
  and deposit buttons move single units between `value` and `points`. At
  start-up a 16×16 loop around the anchor makes a pit wherever a random
  draw is at most 15 (out of 100).

The model has three modules:

- `Text` (text.dfy): the parts of JavaScript's string and number behaviour
  the core uses. These are integer template formatting, `Number(s)`,
  `split` with a one-character separator and `join`.
- `Boards` (board.dfy): `Cell`, `Coin`, `Board` and `Cache`, as classes
  whose methods update their fields.
- `Game` (game.dfy): the counters, the `Session` class holding main.ts's
  module-level state, pit creation, popup seeding and the spawn loop.

A `Cell` is a class, so "the same cell" has the source's meaning: the same
object. JavaScript numbers used as serials are `Num = Int(n) | NaN`.
Coordinates are exact reals. Randomness enters as parameters:
`Session.luck` is a function field standing for `luck`, and the spawn loop
takes its draws as a function of the tile.

Three edge cases of the code are kept as written:

- A new cache's memento is its label `x_y` (src/board.ts:46), not the
  empty string.
- Restoring `x_y`, or the empty string, gives one coin whose serial is NaN,
  not an empty ledger (`Boards.RestorePristine`,
  `Boards.RestoreWithoutFields`).
- A token without a third `#` field stays in the ledger as a coin with a
  NaN serial (src/board.ts:79-81).

The proofs cover several areas:

- Interning: two lookups that round to the same pair return one object.
- The memento round trip: restoring the memento of a cache with at least
  one coin into a new cache of the same cell reproduces its coins and its
  `format()` output, and the next serial continues from the last one.
- Serials: n calls of `addCoin` count up from the next serial.
- Token and label injectivity.
- Counters: every click conserves `value + points`, and any sequence of
  clicks keeps every counter non-negative.
- The spawn loop visits each of the 256 tiles exactly once, in row order.
  It makes a pit exactly for the tiles whose draw succeeds. With exact
  arithmetic on coordinates the pits have distinct keys. Every other entry
  of the cache table, and every cell the board already held, stays as it
  was.

## Model

| member | source | states |
|---|---|---|
| Boards.Round | src/board.ts:19-20 | `Math.round`: the result is within half a unit of the argument, with halves rounded up |
| Boards.LabelInjective | src/board.ts:21 | two coordinate pairs with the same `x_y` key are equal, so the table never confuses two cells |
| Boards.Board.constructor | src/board.ts:14-16 | the intern table starts empty |
| Boards.Board.GetGridCell | src/board.ts:18-29 | the cell has the rounded, scaled coordinates and is stored under its own key; if the key was present, the stored object is returned and the table is unchanged; otherwise a new object is returned and the table gains exactly that entry; existing entries are never altered |
| Boards.Board.ClearBoard | src/board.ts:34-36 | the intern table is empty afterwards |
| Boards.LookupTwice | src/board.ts:18-29 | two lookups whose rounded, scaled pairs agree return the same object |
| Boards.LookupAfterClear | src/board.ts:34-36 | after `clearBoard` a lookup returns a new object, and that object is the table's only entry |
| Boards.TokenFields | src/board.ts:80-81 | splitting an `addCoin` token at `#` gives back its three fields; `Number` of the third is the serial; the token holds no comma |
| Boards.AddCoinsSerials | src/board.ts:52-56 | n calls of `addCoin` keep the earlier coins and append n coins of the cache's cell, whose serials run from the next serial upward (0, 1, ... on an empty ledger; NaN stays NaN) |
| Boards.FormatCoinInjective | src/board.ts:65 | two coins with the same display string agree in coordinates and serial |
| Boards.Cache.constructor | src/board.ts:45-50 | a new cache is empty, its description is the cell's label, and it satisfies the ledger invariant |
| Boards.Cache.AddCoin | src/board.ts:51-59 | appends one coin of the cache's cell with the next serial and its token; the description becomes the comma-join of the tokens; the invariant (coins are what restoring the tokens gives; description is their memento) is kept |
| Boards.Cache.Format | src/board.ts:61-69 | one display string per coin, in ledger order, each `x.toFixed(4):y.toFixed(4)#serial` of that coin |
| Boards.Cache.ToMomento | src/board.ts:71-73 | the memento is the description: the cell's label while nothing was added, otherwise a string whose comma pieces are exactly the tokens |
| Boards.Cache.FromMomento | src/board.ts:75-83 | for any string: the description becomes it, the tokens are its comma pieces, and there is one coin per piece, tagged with the cache's cell, whose serial is `Number` of the piece's third `#` field; the invariant holds afterwards |
| Boards.RestoreRoundTrip | src/board.ts:71-83 | restoring the memento of a cache with at least one coin into a new cache of the same cell yields exactly its coins; `original` is its `format()` output (one display string per coin) and the restored cache's output equals it; the next `addCoin` continues from the last serial |
| Boards.RestoreWithoutFields | src/board.ts:77-81 | a memento with no comma and no `#` restores to a single coin whose serial is NaN |
| Boards.RestorePristine | src/board.ts:45-46 | a new cache's memento is its label, and restoring it yields one NaN-serial coin, not an empty ledger |
| Boards.FillThree | src/board.ts:51-59 | three `addCoin` calls on a new cache of cell (0, 0) give serials 0, 1, 2 and their tokens |
| Boards.ThreeCoins | src/board.ts:51-73 | after three `addCoin` calls on cell (0, 0), the memento is `0#0#0,0#0#1,0#0#2` and `format()` gives `0.0000:0.0000#0`, `#1` and `#2` |
| Boards.RestoreWithGap | src/board.ts:75-83 | restoring `5#-3#0,5#-3#2` keeps the serial gap (0, 2), and the next `addCoin` gives serial 3 |
| Text.ParseShow | src/board.ts:81 | `Number` of a formatted serial gives the serial back, for integers and NaN |
| Text.IntToStringInjective | src/board.ts:21 | distinct integers format to distinct strings |
| Text.SplitJoin | src/board.ts:77 | splitting the comma-join of comma-free tokens gives the tokens back |
| Text.JoinSplit | src/board.ts:77 | joining the comma pieces of any string gives the string back |
| Game.GameCell | src/main.ts:19-24 | `convertToGameCell`: the tile indices i, j are the ones with lat - anchor in [i, i+1) tiles, and likewise for longitude |
| Game.SpawnTile | src/main.ts:128-129 | in exact arithmetic, the position of spawn tile (i, j) converts back to indices (i, j), and its grid cell is (369995 + i, -1220533 + j) |
| Game.CoinCount | src/main.ts:75 | `Math.floor(l * 100)`: the greatest integer not above l·100, and in [0, 100) when luck is in [0, 1) |
| Game.Collect | src/main.ts:100-103 | a collect moves one unit from value to points exactly when value is positive; value + points is conserved; non-negative counters stay non-negative |
| Game.Deposit | src/main.ts:112-115 | a deposit moves one unit from points to value exactly when points is positive; value + points is conserved; non-negative counters stay non-negative |
| Game.ReplayConserves | src/main.ts:99-119 | any sequence of collect and deposit clicks over any open popups conserves the sum of the values plus the points, and keeps every counter non-negative if all start non-negative |
| Game.CandidateAt | src/main.ts:125-126 | tile (i, j) of the neighbourhood is visited at position (i + 8)·16 + (j + 8) of the loop order |
| Game.CandidatesExactlyOnce | src/main.ts:125-126 | the nested loop visits 256 tiles, no tile twice, and a tile is visited exactly when both indices lie in [-8, 8) |
| Game.SpawnedSubsequence | src/main.ts:127 | a tile is among the spawned ones exactly when it is a candidate whose draw succeeds; distinct candidates give distinct spawned tiles |
| Game.SpawnOncePerTile | src/main.ts:125-133 | the loop spawns a pit exactly at the neighbourhood tiles whose draw succeeds, never twice at one tile |
| Game.KeysDistinct | src/main.ts:70 | pits at distinct tiles get distinct cache keys |
| Game.SpawnStep | src/main.ts:127-131 | one step of the loop extends the spawned tiles by the current tile exactly when its draw succeeds |
| Game.SpawnComplete | src/main.ts:125-133 | after the last row, the pits are exactly the spawned tiles of the whole neighbourhood, with distinct keys |
| Game.SeedCoins | src/main.ts:76-78 | `value` calls of `addCoin` on the cache (none when value is not positive): the ledger is n more coins of the next serials, the tokens are the old ones followed by theirs, and the invariant is kept |
| Game.Session.constructor | src/main.ts:46-49 | the board holds exactly the anchor's cell, the cache table is empty and points are 0 |
| Game.Session.MakePit | src/main.ts:59-71 | interns the tile's cell: the intern table afterwards is the old one with the pit's key mapped to the pit's cell, and every old cell is kept; keys it `x_y`; stores a new, empty cache for that cell under the key, replacing any earlier one and leaving every other entry alone |
| Game.Session.OpenPopup | src/main.ts:74-78 | the popup's value is `floor(luck(key) * 100)` for the tile; if the pit's key is in the table, exactly that cache gains `value` coins; the table itself is unchanged |
| Game.Session.CollectClick | src/main.ts:99-103 | updates the popup's value and the points exactly as `Collect` |
| Game.Session.DepositClick | src/main.ts:111-115 | updates the popup's value and the points exactly as `Deposit` |
| Game.Session.SpawnNeighborhood | src/main.ts:125-133 | the pits made are exactly the spawned tiles in loop order; each has the anchor-shifted cell held by the board and a new, empty cache under its label; keys are distinct; the cache table and the intern table each gain exactly those keys; every other cache entry, every cell the board held before (the anchor's included) and the points are unchanged |
| Game.Session.SpawnRow | src/main.ts:126-132 | one row of the loop extends the pits by that row's spawned tiles, keeping the same invariants and frame |
| Game.Session.SpawnAt | src/main.ts:127-131 | one tile: a pit is made exactly when its draw succeeds; both tables gain only keys new to the pits, and old entries are kept |
| Game.Session.SpawnPit | src/main.ts:128-130 | a successful draw at tile (i, j): one more pit at that tile, its cell and new cache held under its key; both tables gain only that key if new, and old entries are kept |

## Left out

- Floating point: coordinates and products are exact reals. The rounding
  error of `lat + i * TILE_DEGREES` and of `* 10000` is not modelled.
- Game.SpawnTile: that tile (i, j) converts back to indices (i, j) holds in
  exact arithmetic only. In doubles, `lat - anchor` carries the rounding
  error of the addition at src/main.ts:128, so the quotient at
  src/main.ts:21 may fall just below i and `Math.floor` then gives i - 1.
- Game.Session.SpawnNeighborhood: the distinct keys, and the cell
  (369995 + i, -1220533 + j) of each pit, depend on the exact back-conversion
  above. In the program two adjacent tiles may map to the same cell and key,
  and the second `makePit` then replaces the first tile's cache
  (src/main.ts:71). The same holds for Game.Session.SpawnPit,
  Game.SpawnComplete and the distinct-keys clause of Game.KeysDistinct as
  used by the loop.
- JavaScript numbers beyond integers and NaN. `Number(s)` is modelled for
  the empty string and optionally signed decimal digit strings. Decimals,
  exponents, whitespace and hex give NaN in the model.
- Integer precision above 2^53, and `toFixed` of magnitudes of 10^21 or
  more, because cells and serials stay far below those bounds.
- `printBoard`: it only logs the table.
- The map, the rectangles and their bounds, the player marker, the status
  panel and the popup's HTML content (src/main.ts:27-44, 51-57, 61-64,
  72, 80-97, 104-107, 116-118, 122). These are DOM and Leaflet output.
- `luck` and `Math.random`: the model takes them as parameters. The popup's
  value is `luck` of the key `i,j,initialValue`.
- `addCoin(point)` in src/main.ts:77 passes an argument that `addCoin`
  ignores. The model's `AddCoin` takes none.
- Game.Session.OpenPopup: the source looks its cache up again on every pass
  of the loop. The model looks it up once, since nothing inside the loop
  changes the table.
- Game.Session.SpawnNeighborhood: states that each pit's cache is new and
  empty and held under its key. It does not state that the cache objects
  are newly allocated (`fresh`). MakePit states that for each call.
- Concurrency between event handlers: each click runs to completion in the
  source, and the model treats clicks as a sequence.
