/** src/main.ts, its sequential part: the global `points` counter and the
    per-popup `value` counter that the collect and deposit buttons move, the
    table of caches keyed by cell, the coins a popup adds when it opens, and
    the loop that spawns pits around the anchor. */
module Game {
  import opened Text
  import opened Boards

  /** The anchor (Merrill College) and the game constants. */
  const ANCHOR_LAT: real := 36.9995
  const ANCHOR_LNG: real := -122.0533
  const TILE_DEGREES: real := 0.0001
  const NEIGHBORHOOD_SIZE: int := 8
  const PIT_SPAWN_PROBABILITY: real := 15.0

  /** `CoordinateConverter.convertToGameCell`: the tile indices of a position
      relative to the anchor, rounded down. */
  function GameCell(lat: real, lng: real): (r: (int, int))
    ensures r.0 as real * TILE_DEGREES <= lat - ANCHOR_LAT < (r.0 + 1) as real * TILE_DEGREES
    ensures r.1 as real * TILE_DEGREES <= lng - ANCHOR_LNG < (r.1 + 1) as real * TILE_DEGREES
  {
    (((lat - ANCHOR_LAT) / TILE_DEGREES).Floor, ((lng - ANCHOR_LNG) / TILE_DEGREES).Floor)
  }

  /** In exact arithmetic, the tile (i, j) of the spawn loop maps back to
      indices (i, j), and its grid cell is the anchor's cell
      (369995, -1220533) shifted by (i, j). With doubles the subtraction in
      `convertToGameCell` may land just below i, giving i - 1. */
  lemma SpawnTile(i: int, j: int)
    ensures GameCell(ANCHOR_LAT + i as real * TILE_DEGREES, ANCHOR_LNG + j as real * TILE_DEGREES) == (i, j)
    ensures Round((ANCHOR_LAT + i as real * TILE_DEGREES) * SCALE) == 369995 + i
    ensures Round((ANCHOR_LNG + j as real * TILE_DEGREES) * SCALE) == -1220533 + j
  {
    assert (ANCHOR_LAT + i as real * TILE_DEGREES - ANCHOR_LAT) / TILE_DEGREES == i as real;
    assert (ANCHOR_LNG + j as real * TILE_DEGREES - ANCHOR_LNG) / TILE_DEGREES == j as real;
    assert (ANCHOR_LAT + i as real * TILE_DEGREES) * SCALE == (369995 + i) as real;
    assert (ANCHOR_LNG + j as real * TILE_DEGREES) * SCALE == (-1220533 + j) as real;
  }

  /** The string `luck` is called with: `[i, j, "initialValue"].toString()`. */
  function LuckKey(i: int, j: int): string
  {
    IntToString(i) + "," + IntToString(j) + ",initialValue"
  }

  /** `Math.floor(l * 100)`: how many coins a popup adds, given luck's value. */
  function CoinCount(l: real): (n: int)
    ensures n as real <= l * 100.0 < n as real + 1.0
    ensures 0.0 <= l < 1.0 ==> 0 <= n < 100
  {
    (l * 100.0).Floor
  }

  /** How often `for (let i = 0; i < n; i++)` runs its body. */
  function Times(n: int): nat
  {
    if n > 0 then n else 0
  }

  /** `Math.random() * 100 <= PIT_SPAWN_PROBABILITY`, given the random draw. */
  predicate SpawnDraw(r: real)
  {
    r * 100.0 <= PIT_SPAWN_PROBABILITY
  }

  // ---------------------------------------------------------------------
  // The collect/deposit counter protocol.

  /** A popup's `value` together with the global `points`. */
  datatype Counters = Counters(value: int, points: int)

  /** A collect click moves one unit from `value` to `points` when `value`
      is positive, and changes nothing otherwise. */
  function Collect(c: Counters): (r: Counters)
    ensures r.value + r.points == c.value + c.points
    ensures c.value > 0 <==> r != c
    ensures c.value > 0 ==> r.value == c.value - 1
    ensures c.value >= 0 && c.points >= 0 ==> r.value >= 0 && r.points >= 0
  {
    if c.value > 0 then Counters(c.value - 1, c.points + 1) else c
  }

  /** A deposit click moves one unit from `points` to `value` when `points`
      is positive, and changes nothing otherwise. */
  function Deposit(c: Counters): (r: Counters)
    ensures r.value + r.points == c.value + c.points
    ensures c.points > 0 <==> r != c
    ensures c.points > 0 ==> r.points == c.points - 1
    ensures c.value >= 0 && c.points >= 0 ==> r.value >= 0 && r.points >= 0
  {
    if c.points > 0 then Counters(c.value + 1, c.points - 1) else c
  }

  datatype Button = CollectButton | DepositButton

  /** A click on a button of the popup with the given index. */
  datatype Click = Click(popup: nat, button: Button)

  function Press(c: Counters, b: Button): Counters
  {
    match b
    case CollectButton => Collect(c)
    case DepositButton => Deposit(c)
  }

  function Sum(values: seq<int>): int
    decreases |values|
  {
    if values == [] then 0 else Sum(values[..|values| - 1]) + values[|values| - 1]
  }

  predicate AllNonNegative(values: seq<int>)
  {
    forall k :: 0 <= k < |values| ==> values[k] >= 0
  }

  predicate ClicksIn(clicks: seq<Click>, popups: nat)
  {
    forall k :: 0 <= k < |clicks| ==> clicks[k].popup < popups
  }

  /** The popups' values and the points after a sequence of clicks. */
  function Replay(values: seq<int>, points: int, clicks: seq<Click>): (r: (seq<int>, int))
    requires ClicksIn(clicks, |values|)
    ensures |r.0| == |values|
    decreases |clicks|
  {
    if clicks == [] then (values, points)
    else
      var c := clicks[0];
      var after := Press(Counters(values[c.popup], points), c.button);
      Replay(values[c.popup := after.value], after.points, clicks[1..])
  }

  lemma {:induction false} SumUpdate(values: seq<int>, p: nat, v: int)
    requires p < |values|
    ensures Sum(values[p := v]) == Sum(values) - values[p] + v
    decreases |values|
  {
    var n := |values| - 1;
    if p < n {
      SumUpdate(values[..n], p, v);
      assert values[p := v][..n] == values[..n][p := v];
    } else {
      assert values[p := v][..n] == values[..n];
    }
  }

  /** Any sequence of clicks, on any of the open popups, keeps the sum of all
      popup values plus the points, and keeps every counter non-negative if
      all start non-negative. */
  lemma {:induction false} ReplayConserves(values: seq<int>, points: int, clicks: seq<Click>)
    requires ClicksIn(clicks, |values|)
    ensures Sum(Replay(values, points, clicks).0) + Replay(values, points, clicks).1 == Sum(values) + points
    ensures AllNonNegative(values) && points >= 0 ==>
              AllNonNegative(Replay(values, points, clicks).0) && Replay(values, points, clicks).1 >= 0
    decreases |clicks|
  {
    if clicks != [] {
      var c := clicks[0];
      var after := Press(Counters(values[c.popup], points), c.button);
      SumUpdate(values, c.popup, after.value);
      assert ClicksIn(clicks[1..], |values[c.popup := after.value]|);
      ReplayConserves(values[c.popup := after.value], after.points, clicks[1..]);
    }
  }

  // ---------------------------------------------------------------------
  // The spawn loop's candidates.

  /** The width of the neighbourhood, 2 * NEIGHBORHOOD_SIZE: indices run
      from -NEIGHBORHOOD_SIZE up to NEIGHBORHOOD_SIZE - 1. */
  const WIDTH: int := 16

  /** The position of tile (i, j) in the order the spawn loop visits tiles. */
  function TileIndex(i: int, j: int): int
  {
    (i + NEIGHBORHOOD_SIZE) * WIDTH + (j + NEIGHBORHOOD_SIZE)
  }

  /** Every tile the spawn loop considers, in the order it considers them:
      row by row, and within a row by column. */
  function Candidates(): (cs: seq<(int, int)>)
    ensures |cs| == WIDTH * WIDTH
  {
    seq(WIDTH * WIDTH, t requires 0 <= t < WIDTH * WIDTH => (t / WIDTH - NEIGHBORHOOD_SIZE, t % WIDTH - NEIGHBORHOOD_SIZE))
  }

  predicate InNeighborhood(p: (int, int))
  {
    -NEIGHBORHOOD_SIZE <= p.0 < NEIGHBORHOOD_SIZE && -NEIGHBORHOOD_SIZE <= p.1 < NEIGHBORHOOD_SIZE
  }

  predicate Distinct<T(==)>(s: seq<T>)
  {
    forall a, b :: 0 <= a < b < |s| ==> s[a] != s[b]
  }

  lemma DivModDistinct(a: nat, b: nat)
    requires a != b
    ensures a / WIDTH != b / WIDTH || a % WIDTH != b % WIDTH
  {
    assert a == a / WIDTH * WIDTH + a % WIDTH;
    assert b == b / WIDTH * WIDTH + b % WIDTH;
  }

  /** Tile (i, j) of the neighbourhood sits at TileIndex(i, j). */
  lemma CandidateAt(i: int, j: int)
    requires InNeighborhood((i, j))
    ensures 0 <= TileIndex(i, j) < |Candidates()| && Candidates()[TileIndex(i, j)] == (i, j)
  {
    var q, r := i + NEIGHBORHOOD_SIZE, j + NEIGHBORHOOD_SIZE;
    assert (q * WIDTH + r) / WIDTH == q && (q * WIDTH + r) % WIDTH == r;
  }

  /** The spawn loop considers 256 tiles: every tile of the 16 by 16
      neighbourhood, each exactly once. */
  lemma CandidatesExactlyOnce()
    ensures |Candidates()| == 256
    ensures Distinct(Candidates())
    ensures forall p :: p in Candidates() <==> InNeighborhood(p)
  {
    var cs := Candidates();
    forall a, b | 0 <= a < b < |cs| ensures cs[a] != cs[b] {
      DivModDistinct(a, b);
    }
    forall p | InNeighborhood(p) ensures p in cs {
      CandidateAt(p.0, p.1);
    }
  }

  /** The tiles, among cs, whose draw spawns a pit, in order. */
  function Spawned(random: (int, int) -> real, cs: seq<(int, int)>): seq<(int, int)>
    decreases |cs|
  {
    if cs == [] then []
    else
      var last := cs[|cs| - 1];
      Spawned(random, cs[..|cs| - 1]) + (if SpawnDraw(random(last.0, last.1)) then [last] else [])
  }

  lemma {:induction false} SpawnedSubsequence(random: (int, int) -> real, cs: seq<(int, int)>)
    ensures forall p :: p in Spawned(random, cs) <==> p in cs && SpawnDraw(random(p.0, p.1))
    ensures Distinct(cs) ==> Distinct(Spawned(random, cs))
    decreases |cs|
  {
    if cs != [] {
      var init := cs[..|cs| - 1];
      SpawnedSubsequence(random, init);
      assert cs == init + [cs[|cs| - 1]];
    }
  }

  /** Spawning over one more candidate adds that candidate when its draw
      succeeds. */
  lemma SpawnedStep(random: (int, int) -> real, cs: seq<(int, int)>, n: nat)
    requires n < |cs|
    ensures Spawned(random, cs[..n + 1]) ==
              Spawned(random, cs[..n]) + (if SpawnDraw(random(cs[n].0, cs[n].1)) then [cs[n]] else [])
  {
    assert cs[..n + 1][..n] == cs[..n];
  }

  /** One step of the spawn loop extends the tiles spawned so far by the
      tile's own draw. */
  lemma SpawnStep(random: (int, int) -> real, i: int, j: int, before: seq<(int, int)>, after: seq<(int, int)>)
    requires InNeighborhood((i, j))
    requires before == Spawned(random, Candidates()[..TileIndex(i, j)])
    requires after == before + (if SpawnDraw(random(i, j)) then [(i, j)] else [])
    ensures after == Spawned(random, Candidates()[..TileIndex(i, j + 1)])
  {
    CandidateAt(i, j);
    SpawnedStep(random, Candidates(), TileIndex(i, j));
  }

  /** The spawn loop draws once per tile of the neighbourhood, and makes a
      pit exactly for the tiles whose draw succeeds, never twice for one. */
  lemma SpawnOncePerTile(random: (int, int) -> real)
    ensures Distinct(Spawned(random, Candidates()))
    ensures forall p :: p in Spawned(random, Candidates()) <==> InNeighborhood(p) && SpawnDraw(random(p.0, p.1))
  {
    CandidatesExactlyOnce();
    SpawnedSubsequence(random, Candidates());
  }

  // ---------------------------------------------------------------------
  // The game state.

  /** A pit made by `makePit`: its tile indices, its interned cell and the
      key of its cache. */
  datatype Pit = Pit(i: int, j: int, point: Cell, key: string)

  function TilesOf(pits: seq<Pit>): (tiles: seq<(int, int)>)
    ensures |tiles| == |pits|
  {
    seq(|pits|, k requires 0 <= k < |pits| => (pits[k].i, pits[k].j))
  }

  function KeysOf(pits: seq<Pit>): set<string>
  {
    set k | 0 <= k < |pits| :: pits[k].key
  }

  lemma KeysOfSnoc(pits: seq<Pit>, pit: Pit)
    ensures KeysOf(pits + [pit]) == KeysOf(pits) + {pit.key}
  {
    var after := pits + [pit];
    forall key | key in KeysOf(after) ensures key in KeysOf(pits) + {pit.key} {
      var k :| 0 <= k < |after| && after[k].key == key;
      if k < |pits| {
        assert after[k] == pits[k];
      }
    }
    forall key | key in KeysOf(pits) ensures key in KeysOf(after) {
      var k :| 0 <= k < |pits| && pits[k].key == key;
      assert after[k] == pits[k];
    }
    assert after[|pits|] == pit;
  }

  /** Each pit's cell is the anchor's cell shifted by the pit's tile, and its
      key is that cell's label. */
  predicate PitsShape(pits: seq<Pit>)
  {
    forall k :: 0 <= k < |pits| ==>
      && pits[k].point.x == 369995 + pits[k].i && pits[k].point.y == -1220533 + pits[k].j
      && pits[k].key == CellLabel(pits[k].point.x, pits[k].point.y)
  }

  lemma PitsShapeSnoc(pits: seq<Pit>, pit: Pit)
    requires PitsShape(pits)
    requires pit.point.x == 369995 + pit.i && pit.point.y == -1220533 + pit.j
    requires pit.key == CellLabel(pit.point.x, pit.point.y)
    ensures PitsShape(pits + [pit])
  {
    var after := pits + [pit];
    assert forall k :: 0 <= k < |pits| ==> after[k] == pits[k];
  }

  lemma TilesOfSnoc(pits: seq<Pit>, pit: Pit)
    ensures TilesOf(pits + [pit]) == TilesOf(pits) + [(pit.i, pit.j)]
  {
    assert TilesOf(pits + [pit])[|pits|] == (pit.i, pit.j);
  }

  /** Pits at distinct tiles, each keyed by the label of the anchor's cell
      shifted by its tile, have distinct keys. */
  lemma KeysDistinct(pits: seq<Pit>)
    requires Distinct(TilesOf(pits)) && PitsShape(pits)
    ensures forall a, b :: 0 <= a < b < |pits| ==> pits[a].key != pits[b].key
  {
    forall a, b | 0 <= a < b < |pits| ensures pits[a].key != pits[b].key {
      assert TilesOf(pits)[a] != TilesOf(pits)[b];
      if pits[a].key == pits[b].key {
        LabelInjective(pits[a].point.x, pits[a].point.y, pits[b].point.x, pits[b].point.y);
      }
    }
  }

  /** Once the spawn loop has visited every candidate, the pits are exactly
      the spawned tiles, and their keys are distinct. */
  lemma SpawnComplete(random: (int, int) -> real, pits: seq<Pit>)
    requires TilesOf(pits) == Spawned(random, Candidates()[..TileIndex(NEIGHBORHOOD_SIZE, -NEIGHBORHOOD_SIZE)])
    requires PitsShape(pits)
    ensures TilesOf(pits) == Spawned(random, Candidates())
    ensures forall a, b :: 0 <= a < b < |pits| ==> pits[a].key != pits[b].key
  {
    assert Candidates()[..TileIndex(NEIGHBORHOOD_SIZE, -NEIGHBORHOOD_SIZE)] == Candidates();
    SpawnOncePerTile(random);
    KeysDistinct(pits);
  }

  /** One more `addCoin` keeps `formatList` the old tokens followed by the
      tokens of the coins added since. */
  lemma AddedTokens(cell: Cell, coins0: seq<Coin>, tokens0: seq<string>, before: seq<Coin>, after: seq<Coin>,
                    tokensBefore: seq<string>, tokensAfter: seq<string>)
    requires |coins0| <= |before| && after == before + [Coin(cell, NextSerial(before))]
    requires tokensBefore == tokens0 + TokensOf(cell, before[|coins0|..])
    requires tokensAfter == tokensBefore + [Token(cell.x, cell.y, NextSerial(before))]
    ensures tokensAfter == tokens0 + TokensOf(cell, after[|coins0|..])
  {
    assert after[|coins0|..] == before[|coins0|..] + [Coin(cell, NextSerial(before))];
    assert TokensOf(cell, after[|coins0|..]) ==
             TokensOf(cell, before[|coins0|..]) + [Token(cell.x, cell.y, NextSerial(before))];
  }

  /** The keys added by a stretch of the spawn loop, on top of the keys
      added before it. */
  lemma KeysGrow(keys0: set<string>, keys1: set<string>, keys2: set<string>, pits1: set<string>, pits2: set<string>)
    requires keys1 == keys0 + pits1 && keys2 == keys1 + (pits2 - pits1) && pits1 <= pits2
    ensures keys2 == keys0 + pits2
  {
  }

  lemma KeysGrowFrom(keys0: set<string>, keys1: set<string>, keys2: set<string>,
                     pits0: set<string>, pits1: set<string>, pits2: set<string>)
    requires keys1 == keys0 + (pits1 - pits0) && keys2 == keys1 + (pits2 - pits1)
    requires pits0 <= pits1 <= pits2
    ensures keys2 == keys0 + (pits2 - pits0)
  {
  }

  /** Entries the spawn loop has not keyed so far keep their values. */
  lemma TableGrow<V>(table0: map<string, V>, table1: map<string, V>, table2: map<string, V>,
                  pits1: set<string>, pits2: set<string>)
    requires forall key | key in table0 && key !in pits1 :: key in table1 && table1[key] == table0[key]
    requires forall key | key in table1 && key !in pits2 :: key in table2 && table2[key] == table1[key]
    requires pits1 <= pits2
    ensures forall key | key in table0 && key !in pits2 :: key in table2 && table2[key] == table0[key]
  {
  }

  /** Storing one more pit's key in a table keyed by pit keys: the table
      gains the keys new to the pits, and other entries keep their values. */
  lemma KeysAdd<V>(table0: map<string, V>, table1: map<string, V>, pits0: set<string>, pits1: set<string>,
                   key: string, v: V)
    requires table1 == table0[key := v] && pits1 == pits0 + {key}
    requires key in pits0 ==> key in table0
    ensures table1.Keys == table0.Keys + (pits1 - pits0)
    ensures forall k | k in table0 && k !in pits1 :: k in table1 && table1[k] == table0[k]
  {
  }

  /** A cache as `new Cache(cell)` leaves it. */
  ghost predicate IsNewCache(c: Cache, cell: Cell)
    reads c
  {
    c.cell == cell && c.coinList == [] && c.formatList == [] && c.description == CellLabel(cell.x, cell.y)
  }

  /** The counter of one open popup (`let value`). */
  class Popup {
    var value: int

    constructor (value: int)
      ensures this.value == value
    {
      this.value := value;
    }
  }

  /** The popup's seeding loop: `value` calls of `addCoin` on one cache
      (none when `value` is not positive). */
  method SeedCoins(c: Cache, value: int)
    requires c.Valid()
    modifies c
    ensures c.Valid()
    ensures c.coinList == AddCoins(c.cell, old(c.coinList), Times(value))
    ensures c.formatList == old(c.formatList) + TokensOf(c.cell, c.coinList[|old(c.coinList)|..])
    ensures c.description == (if value > 0 then Join(c.formatList, ',') else old(c.description))
  {
    var k := 0;
    while k < value
      invariant 0 <= k <= Times(value)
      invariant c.Valid()
      invariant c.coinList == AddCoins(c.cell, old(c.coinList), k)
      invariant c.formatList == old(c.formatList) + TokensOf(c.cell, c.coinList[|old(c.coinList)|..])
      invariant c.description == (if k > 0 then Join(c.formatList, ',') else old(c.description))
    {
      ghost var before, tokensBefore := c.coinList, c.formatList;
      c.AddCoin();
      AddedTokens(c.cell, old(c.coinList), old(c.formatList), before, c.coinList, tokensBefore, c.formatList);
      k := k + 1;
    }
    assert k == Times(value);
  }

  /** The module-level state of main.ts. */
  class Session {
    const board: Board
    const luck: string -> real
    var cacheList: map<string, Cache>
    var points: int

    /** The board is valid, and every cache is valid and sits under the key
        of its own cell, which is the cell the board holds for that key. */
    ghost predicate Valid()
      reads this, board, cacheList.Values
    {
      && board.Valid()
      && (forall c | c in cacheList.Values :: c.Valid())
      && (forall k | k in cacheList :: k in board.oldCells && cacheList[k].cell == board.oldCells[k])
    }

    constructor (luck: string -> real)
      ensures Valid() && fresh(board)
      ensures this.luck == luck && cacheList == map[] && points == 0
      ensures board.oldCells.Keys == {CellLabel(Round(ANCHOR_LAT * SCALE), Round(ANCHOR_LNG * SCALE))}
    {
      board := new Board();
      this.luck := luck;
      cacheList := map[];
      points := 0;
      new;
      var anchor := board.GetGridCell(ANCHOR_LAT, ANCHOR_LNG);
    }

    /** `makePit`: intern the tile's cell and store a new, empty cache for it
        under the cell's key, replacing any cache stored there before. */
    method MakePit(lat: real, lng: real) returns (pit: Pit)
      requires Valid()
      modifies this, board
      ensures Valid()
      ensures (pit.i, pit.j) == GameCell(lat, lng)
      ensures pit.point.x == Round((ANCHOR_LAT + pit.i as real * TILE_DEGREES) * SCALE)
      ensures pit.point.y == Round((ANCHOR_LNG + pit.j as real * TILE_DEGREES) * SCALE)
      ensures pit.key == CellLabel(pit.point.x, pit.point.y)
      ensures pit.key in board.oldCells && board.oldCells[pit.key] == pit.point
      ensures board.oldCells == old(board.oldCells)[pit.key := pit.point]
      ensures forall k | k in old(board.oldCells) :: k in board.oldCells && board.oldCells[k] == old(board.oldCells)[k]
      ensures pit.key in cacheList && fresh(cacheList[pit.key]) && IsNewCache(cacheList[pit.key], pit.point)
      ensures cacheList == old(cacheList)[pit.key := cacheList[pit.key]]
      ensures points == old(points)
    {
      var (i, j) := GameCell(lat, lng);
      var point := board.GetGridCell(ANCHOR_LAT + i as real * TILE_DEGREES, ANCHOR_LNG + j as real * TILE_DEGREES);
      var key := CellLabel(point.x, point.y);
      var cache := new Cache(point);
      cacheList := cacheList[key := cache];
      pit := Pit(i, j, point, key);
    }

    /** Opening a pit's popup: `value` is luck's draw for the tile, and that
        many coins are added to the cache under the pit's key, every time the
        popup opens. */
    method OpenPopup(pit: Pit) returns (popup: Popup)
      requires Valid()
      modifies if pit.key in cacheList then {cacheList[pit.key]} else {}
      ensures Valid()
      ensures fresh(popup) && popup.value == CoinCount(luck(LuckKey(pit.i, pit.j)))
      ensures cacheList == old(cacheList) && points == old(points)
      ensures pit.key in cacheList ==>
                var c := cacheList[pit.key];
                && c.coinList == AddCoins(c.cell, old(c.coinList), Times(popup.value))
                && c.formatList == old(c.formatList) + TokensOf(c.cell, c.coinList[|old(c.coinList)|..])
                && c.description == (if popup.value > 0 then Join(c.formatList, ',') else old(c.description))
    {
      var value := CoinCount(luck(LuckKey(pit.i, pit.j)));
      if pit.key in cacheList {
        // `cacheList.get(key)?.addCoin()`: the table does not change while
        // the loop runs, so the lookup is the same on every pass.
        SeedCoins(cacheList[pit.key], value);
      }
      popup := new Popup(value);
    }

    /** The click handler of a popup's collect buttons. */
    method CollectClick(popup: Popup)
      modifies this`points, popup`value
      ensures Counters(popup.value, points) == Collect(Counters(old(popup.value), old(points)))
    {
      if popup.value > 0 {
        popup.value := popup.value - 1;
        points := points + 1;
      }
    }

    /** The click handler of a popup's deposit button. */
    method DepositClick(popup: Popup)
      modifies this`points, popup`value
      ensures Counters(popup.value, points) == Deposit(Counters(old(popup.value), old(points)))
    {
      if points > 0 {
        popup.value := popup.value + 1;
        points := points - 1;
      }
    }

    /** The spawn loop: for each tile of the neighbourhood, in row order, one
        draw, and `makePit` for the tile when the draw succeeds. */
    method SpawnNeighborhood(random: (int, int) -> real) returns (pits: seq<Pit>)
      requires Valid()
      modifies this, board
      ensures Valid()
      ensures TilesOf(pits) == Spawned(random, Candidates())
      ensures PitsShape(pits) && PitsHeld(pits)
      ensures forall a, b :: 0 <= a < b < |pits| ==> pits[a].key != pits[b].key
      ensures cacheList.Keys == old(cacheList).Keys + KeysOf(pits)
      ensures forall key | key in old(cacheList) && key !in KeysOf(pits) :: key in cacheList && cacheList[key] == old(cacheList)[key]
      ensures board.oldCells.Keys == old(board.oldCells).Keys + KeysOf(pits)
      ensures forall key | key in old(board.oldCells) :: key in board.oldCells && board.oldCells[key] == old(board.oldCells)[key]
      ensures points == old(points)
    {
      pits := [];
      var i := -NEIGHBORHOOD_SIZE;
      while i < NEIGHBORHOOD_SIZE
        invariant -NEIGHBORHOOD_SIZE <= i <= NEIGHBORHOOD_SIZE
        invariant Valid() && points == old(points)
        invariant TilesOf(pits) == Spawned(random, Candidates()[..TileIndex(i, -NEIGHBORHOOD_SIZE)])
        invariant PitsShape(pits) && PitsHeld(pits)
        invariant cacheList.Keys == old(cacheList).Keys + KeysOf(pits)
        invariant forall key | key in old(cacheList) && key !in KeysOf(pits) :: key in cacheList && cacheList[key] == old(cacheList)[key]
        invariant board.oldCells.Keys == old(board.oldCells).Keys + KeysOf(pits)
        invariant forall key | key in old(board.oldCells) :: key in board.oldCells && board.oldCells[key] == old(board.oldCells)[key]
      {
        ghost var table, cells, before := cacheList, board.oldCells, pits;
        pits := SpawnRow(random, i, pits);
        KeysGrow(old(cacheList).Keys, table.Keys, cacheList.Keys, KeysOf(before), KeysOf(pits));
        TableGrow(old(cacheList), table, cacheList, KeysOf(before), KeysOf(pits));
        KeysGrow(old(board.oldCells).Keys, cells.Keys, board.oldCells.Keys, KeysOf(before), KeysOf(pits));
        TableGrow(old(board.oldCells), cells, board.oldCells, {}, {});
        i := i + 1;
      }
      SpawnComplete(random, pits);
    }

    /** One pass of the outer spawn loop: row i, column by column. */
    method SpawnRow(random: (int, int) -> real, i: int, pits: seq<Pit>) returns (pits': seq<Pit>)
      requires -NEIGHBORHOOD_SIZE <= i < NEIGHBORHOOD_SIZE
      requires Valid() && PitsShape(pits) && PitsHeld(pits)
      requires TilesOf(pits) == Spawned(random, Candidates()[..TileIndex(i, -NEIGHBORHOOD_SIZE)])
      modifies this, board
      ensures Valid() && PitsShape(pits') && PitsHeld(pits') && points == old(points)
      ensures TilesOf(pits') == Spawned(random, Candidates()[..TileIndex(i + 1, -NEIGHBORHOOD_SIZE)])
      ensures cacheList.Keys == old(cacheList).Keys + (KeysOf(pits') - KeysOf(pits))
      ensures KeysOf(pits) <= KeysOf(pits')
      ensures forall key | key in old(cacheList) && key !in KeysOf(pits') :: key in cacheList && cacheList[key] == old(cacheList)[key]
      ensures board.oldCells.Keys == old(board.oldCells).Keys + (KeysOf(pits') - KeysOf(pits))
      ensures forall key | key in old(board.oldCells) :: key in board.oldCells && board.oldCells[key] == old(board.oldCells)[key]
    {
      pits' := pits;
      var j := -NEIGHBORHOOD_SIZE;
      while j < NEIGHBORHOOD_SIZE
        invariant -NEIGHBORHOOD_SIZE <= j <= NEIGHBORHOOD_SIZE
        invariant Valid() && PitsShape(pits') && PitsHeld(pits') && points == old(points)
        invariant TilesOf(pits') == Spawned(random, Candidates()[..TileIndex(i, j)])
        invariant cacheList.Keys == old(cacheList).Keys + (KeysOf(pits') - KeysOf(pits))
        invariant KeysOf(pits) <= KeysOf(pits')
        invariant forall key | key in old(cacheList) && key !in KeysOf(pits') :: key in cacheList && cacheList[key] == old(cacheList)[key]
        invariant board.oldCells.Keys == old(board.oldCells).Keys + (KeysOf(pits') - KeysOf(pits))
        invariant forall key | key in old(board.oldCells) :: key in board.oldCells && board.oldCells[key] == old(board.oldCells)[key]
      {
        ghost var table, cells, before := cacheList, board.oldCells, pits';
        pits' := SpawnAt(random, i, j, pits');
        SpawnStep(random, i, j, TilesOf(before), TilesOf(pits'));
        KeysGrowFrom(old(cacheList).Keys, table.Keys, cacheList.Keys, KeysOf(pits), KeysOf(before), KeysOf(pits'));
        TableGrow(old(cacheList), table, cacheList, KeysOf(before), KeysOf(pits'));
        KeysGrowFrom(old(board.oldCells).Keys, cells.Keys, board.oldCells.Keys, KeysOf(pits), KeysOf(before), KeysOf(pits'));
        TableGrow(old(board.oldCells), cells, board.oldCells, {}, {});
        j := j + 1;
      }
      assert TileIndex(i, NEIGHBORHOOD_SIZE) == TileIndex(i + 1, -NEIGHBORHOOD_SIZE);
    }

    /** One step of the spawn loop: the draw for tile (i, j), and `makePit`
        for the tile when it succeeds. */
    method SpawnAt(random: (int, int) -> real, i: int, j: int, pits: seq<Pit>) returns (pits': seq<Pit>)
      requires Valid() && PitsShape(pits) && PitsHeld(pits)
      modifies this, board
      ensures Valid() && PitsShape(pits') && PitsHeld(pits') && points == old(points)
      ensures TilesOf(pits') == TilesOf(pits) + (if SpawnDraw(random(i, j)) then [(i, j)] else [])
      ensures cacheList.Keys == old(cacheList).Keys + (KeysOf(pits') - KeysOf(pits))
      ensures KeysOf(pits) <= KeysOf(pits')
      ensures forall key | key in old(cacheList) && key !in KeysOf(pits') :: key in cacheList && cacheList[key] == old(cacheList)[key]
      ensures board.oldCells.Keys == old(board.oldCells).Keys + (KeysOf(pits') - KeysOf(pits))
      ensures forall key | key in old(board.oldCells) :: key in board.oldCells && board.oldCells[key] == old(board.oldCells)[key]
    {
      if SpawnDraw(random(i, j)) {
        pits' := SpawnPit(i, j, pits);
      } else {
        pits' := pits;
      }
    }

    /** The body of a successful draw: `makePit` at the position of tile
        (i, j), recorded as one more pit. */
    method SpawnPit(i: int, j: int, pits: seq<Pit>) returns (pits': seq<Pit>)
      requires Valid() && PitsShape(pits) && PitsHeld(pits)
      modifies this, board
      ensures Valid() && PitsShape(pits') && PitsHeld(pits') && points == old(points)
      ensures TilesOf(pits') == TilesOf(pits) + [(i, j)]
      ensures cacheList.Keys == old(cacheList).Keys + (KeysOf(pits') - KeysOf(pits))
      ensures KeysOf(pits) <= KeysOf(pits')
      ensures forall key | key in old(cacheList) && key !in KeysOf(pits') :: key in cacheList && cacheList[key] == old(cacheList)[key]
      ensures board.oldCells.Keys == old(board.oldCells).Keys + (KeysOf(pits') - KeysOf(pits))
      ensures forall key | key in old(board.oldCells) :: key in board.oldCells && board.oldCells[key] == old(board.oldCells)[key]
    {
      SpawnTile(i, j);
      var pit := MakePit(ANCHOR_LAT + i as real * TILE_DEGREES, ANCHOR_LNG + j as real * TILE_DEGREES);
      assert pit.i == i && pit.j == j;
      assert pit.point.x == 369995 + pit.i && pit.point.y == -1220533 + pit.j;
      pits' := pits + [pit];
      TilesOfSnoc(pits, pit);
      KeysOfSnoc(pits, pit);
      PitsShapeSnoc(pits, pit);
      forall k | 0 <= k < |pits| ensures Holds(pits[k]) {
        var q := pits[k];
        if q.key == pit.key {
          assert q.point == pit.point;
        } else {
          var c := old(cacheList)[q.key];
          assert old(IsNewCache(c, q.point));
          assert cacheList[q.key] == c;
        }
      }
      HeldSnoc(pits, pit);
      if pit.key in KeysOf(pits) {
        var k :| 0 <= k < |pits| && pits[k].key == pit.key;
        assert old(Holds(pits[k]));
      }
      KeysAdd(old(cacheList), cacheList, KeysOf(pits), KeysOf(pits'), pit.key, cacheList[pit.key]);
      KeysAdd(old(board.oldCells), board.oldCells, KeysOf(pits), KeysOf(pits'), pit.key, pit.point);
    }

    /** What the spawn loop keeps of each pit made so far: the board holds
        its cell under its key, and the cache table a new, empty cache for
        that cell. */
    ghost predicate PitsHeld(pits: seq<Pit>)
      reads this, board, cacheList.Values
    {
      forall k :: 0 <= k < |pits| ==> Holds(pits[k])
    }

    ghost predicate Holds(pit: Pit)
      reads this, board, cacheList.Values
    {
      && pit.key in board.oldCells && board.oldCells[pit.key] == pit.point
      && pit.key in cacheList && IsNewCache(cacheList[pit.key], pit.point)
    }

    lemma HeldSnoc(pits: seq<Pit>, pit: Pit)
      requires PitsHeld(pits) && Holds(pit)
      ensures PitsHeld(pits + [pit])
    {
      assert forall k :: 0 <= k < |pits| ==> (pits + [pit])[k] == pits[k];
    }
  }
}
