/** src/board.ts: the table that interns grid cells (`Board`) and the coin
    cache of one cell (`Cache`) with its memento encoding. */
module Boards {
  import opened Text

  /** A grid cell: a coordinate pair already scaled by SCALE and rounded.
      Cells are objects, so "the same cell" means the same object. */
  class Cell {
    const x: int
    const y: int

    constructor (x: int, y: int)
      ensures this.x == x && this.y == y
    {
      this.x := x;
      this.y := y;
    }
  }

  /** `Coins`: the cell a coin is tagged with and its serial. */
  datatype Coin = Coin(coord: Cell, serial: Num)

  /** The factor `getGridCell` scales coordinates by. */
  const SCALE: real := 10000.0

  /** `Math.round`: the nearest integer, halves rounded up. */
  function Round(v: real): (r: int)
    ensures r as real - 0.5 <= v < r as real + 0.5
  {
    (v + 0.5).Floor
  }

  /** `${x}_${y}`: the key of a cell in the intern table, the key of its cache
      in the game and the memento of a fresh cache. */
  function CellLabel(x: int, y: int): string
  {
    IntToString(x) + "_" + IntToString(y)
  }

  lemma LabelSplit(x: int, y: int)
    ensures Split(CellLabel(x, y), '_') == [IntToString(x), IntToString(y)]
  {
    NotInIntToString(x, '_');
    NotInIntToString(y, '_');
    Split2(IntToString(x), IntToString(y), '_');
  }

  /** Different coordinate pairs never share a key, so the intern table holds
      at most one cell per pair. */
  lemma LabelInjective(a: int, b: int, c: int, d: int)
    requires CellLabel(a, b) == CellLabel(c, d)
    ensures a == c && b == d
  {
    LabelSplit(a, b);
    LabelSplit(c, d);
    IntToStringInjective(a, c);
    IntToStringInjective(b, d);
  }

  /** Every entry of the intern table sits under its own cell's key. */
  ghost predicate Interned(cells: map<string, Cell>)
  {
    forall k | k in cells :: k == CellLabel(cells[k].x, cells[k].y)
  }

  class Board {
    var oldCells: map<string, Cell>

    ghost predicate Valid()
      reads this
    {
      Interned(oldCells)
    }

    constructor ()
      ensures Valid() && oldCells == map[]
    {
      oldCells := map[];
    }

    /** The one cell for the rounded, scaled pair: the stored one if its key
        is present, otherwise a new cell that is stored under that key. */
    method GetGridCell(x: real, y: real) returns (cell: Cell)
      requires Valid()
      modifies this
      ensures Valid()
      ensures cell.x == Round(x * SCALE) && cell.y == Round(y * SCALE)
      ensures CellLabel(cell.x, cell.y) in oldCells && oldCells[CellLabel(cell.x, cell.y)] == cell
      ensures CellLabel(cell.x, cell.y) in old(oldCells) ==>
                cell == old(oldCells)[CellLabel(cell.x, cell.y)] && oldCells == old(oldCells)
      ensures CellLabel(cell.x, cell.y) !in old(oldCells) ==>
                fresh(cell) && oldCells == old(oldCells)[CellLabel(cell.x, cell.y) := cell]
      ensures forall k | k in old(oldCells) :: k in oldCells && oldCells[k] == old(oldCells)[k]
    {
      var i := Round(x * SCALE);
      var j := Round(y * SCALE);
      var key := CellLabel(i, j);
      if key in oldCells {
        cell := oldCells[key];
        assert key == CellLabel(cell.x, cell.y);
        LabelInjective(i, j, cell.x, cell.y);
      } else {
        cell := new Cell(i, j);
        oldCells := oldCells[key := cell];
      }
    }

    method ClearBoard()
      modifies this
      ensures Valid() && oldCells == map[]
    {
      oldCells := map[];
    }
  }

  /** Two lookups whose rounded, scaled pairs agree return the same object. */
  method LookupTwice(board: Board, x1: real, y1: real, x2: real, y2: real) returns (c1: Cell, c2: Cell)
    requires board.Valid()
    requires Round(x1 * SCALE) == Round(x2 * SCALE) && Round(y1 * SCALE) == Round(y2 * SCALE)
    modifies board
    ensures board.Valid()
    ensures c1 == c2
  {
    c1 := board.GetGridCell(x1, y1);
    c2 := board.GetGridCell(x2, y2);
  }

  /** After `clearBoard` every lookup creates a new cell. */
  method LookupAfterClear(board: Board, x: real, y: real) returns (c: Cell)
    requires board.Valid()
    modifies board
    ensures fresh(c) && board.oldCells == map[CellLabel(c.x, c.y) := c]
  {
    board.ClearBoard();
    c := board.GetGridCell(x, y);
  }

  /** `${x}#${y}#${serial}`: the memento token of one coin. */
  function Token(x: int, y: int, serial: Num): string
  {
    IntToString(x) + "#" + IntToString(y) + "#" + ShowNum(serial)
  }

  /** `Number(token.split("#")[2])`: the serial a restored coin gets; a token
      with fewer than three fields has none (`Number(undefined)` is NaN). */
  function SerialField(token: string): Num
  {
    var fields := Split(token, '#');
    if |fields| > 2 then ParseNumber(fields[2]) else NaN
  }

  /** A token written by `addCoin` gives its serial back and holds no comma. */
  lemma TokenFields(x: int, y: int, serial: Num)
    ensures Split(Token(x, y, serial), '#') == [IntToString(x), IntToString(y), ShowNum(serial)]
    ensures SerialField(Token(x, y, serial)) == serial
    ensures ',' !in Token(x, y, serial)
  {
    NotInIntToString(x, '#');
    NotInIntToString(y, '#');
    NotInShowNum(serial, '#');
    Split3(IntToString(x), IntToString(y), ShowNum(serial), '#');
    ParseShow(serial);
    NotInIntToString(x, ',');
    NotInIntToString(y, ',');
    NotInShowNum(serial, ',');
  }

  /** The coins `fromMomento` rebuilds from memento pieces: one per piece, in
      order, each tagged with the restoring cache's cell. */
  function CoinsOf(cell: Cell, tokens: seq<string>): (coins: seq<Coin>)
    ensures |coins| == |tokens|
  {
    seq(|tokens|, k requires 0 <= k < |tokens| => Coin(cell, SerialField(tokens[k])))
  }

  /** The serial `addCoin` gives the next coin. */
  function NextSerial(coins: seq<Coin>): Num
  {
    if |coins| > 0 then Inc(coins[|coins| - 1].serial) else Int(0)
  }

  /** `v + k` (NaN stays NaN). */
  function Plus(v: Num, k: nat): Num
  {
    match v
    case Int(n) => Int(n + k)
    case NaN => NaN
  }

  /** The coin list after n calls of `addCoin`. */
  function AddCoins(cell: Cell, coins: seq<Coin>, n: nat): (r: seq<Coin>)
    ensures |r| == |coins| + n
    decreases n
  {
    if n == 0 then coins
    else
      var before := AddCoins(cell, coins, n - 1);
      before + [Coin(cell, NextSerial(before))]
  }

  /** n calls of `addCoin` keep the earlier coins and append n coins whose
      serials count up from the next serial (0, 1, ..., n-1 on an empty list). */
  lemma {:induction false} AddCoinsSerials(cell: Cell, coins: seq<Coin>, n: nat)
    ensures |AddCoins(cell, coins, n)| == |coins| + n
    ensures AddCoins(cell, coins, n)[..|coins|] == coins
    ensures forall k :: 0 <= k < n ==>
              AddCoins(cell, coins, n)[|coins| + k] == Coin(cell, Plus(NextSerial(coins), k))
    decreases n
  {
    if n > 0 {
      AddCoinsSerials(cell, coins, n - 1);
      var before := AddCoins(cell, coins, n - 1);
      var v := NextSerial(coins);
      if n - 1 > 0 {
        var last := before[|coins| + (n - 2)];
        assert last == Coin(cell, Plus(v, n - 2));
        assert NextSerial(before) == Inc(Plus(v, n - 2));
        assert Inc(Plus(v, n - 2)) == Plus(v, n - 1) by {
          match v
          case Int(a) =>
          case NaN =>
        }
      } else {
        assert Plus(v, 0) == v by {
          match v
          case Int(a) =>
          case NaN =>
        }
      }
      var after := before + [Coin(cell, NextSerial(before))];
      assert after[..|coins|] == before[..|coins|];
    }
  }

  /** The tokens `addCoin` pushes for coins of a cell. */
  function TokensOf(cell: Cell, coins: seq<Coin>): (tokens: seq<string>)
    ensures |tokens| == |coins|
  {
    seq(|coins|, k requires 0 <= k < |coins| => Token(cell.x, cell.y, coins[k].serial))
  }

  /** What `description` holds for a given `formatList`: the join of the
      tokens, or the cell's label while nothing has been added or restored. */
  function Memento(cell: Cell, tokens: seq<string>): string
  {
    if tokens == [] then CellLabel(cell.x, cell.y) else Join(tokens, ',')
  }

  /** `toFixed(4)` of an integer. */
  function ToFixed4(n: int): string
  {
    IntToString(n) + ".0000"
  }

  /** The display token `format` gives one coin. */
  function FormatCoin(coin: Coin): string
  {
    ToFixed4(coin.coord.x) + ":" + ToFixed4(coin.coord.y) + "#" + ShowNum(coin.serial)
  }

  lemma ToFixed4Injective(a: int, b: int)
    requires ToFixed4(a) == ToFixed4(b)
    ensures a == b
  {
    var sa, sb := IntToString(a), IntToString(b);
    assert |sa| == |sb|;
    assert (sa + ".0000")[..|sa|] == sa;
    assert (sb + ".0000")[..|sb|] == sb;
    IntToStringInjective(a, b);
  }

  lemma NotInToFixed4(n: int, c: char)
    requires !IsNumeral(c) && c != '.'
    ensures c !in ToFixed4(n)
  {
    NotInIntToString(n, c);
  }

  /** Two coins with the same display token agree in cell coordinates and
      serial. */
  lemma FormatCoinInjective(a: Coin, b: Coin)
    requires FormatCoin(a) == FormatCoin(b)
    ensures a.coord.x == b.coord.x && a.coord.y == b.coord.y && a.serial == b.serial
  {
    forall c: Coin ensures Split(FormatCoin(c), '#') == [ToFixed4(c.coord.x) + ":" + ToFixed4(c.coord.y), ShowNum(c.serial)]
                   && Split(ToFixed4(c.coord.x) + ":" + ToFixed4(c.coord.y), ':') == [ToFixed4(c.coord.x), ToFixed4(c.coord.y)]
    {
      NotInToFixed4(c.coord.x, '#');
      NotInToFixed4(c.coord.y, '#');
      NotInShowNum(c.serial, '#');
      Split2(ToFixed4(c.coord.x) + ":" + ToFixed4(c.coord.y), ShowNum(c.serial), '#');
      NotInToFixed4(c.coord.x, ':');
      NotInToFixed4(c.coord.y, ':');
      Split2(ToFixed4(c.coord.x), ToFixed4(c.coord.y), ':');
    }
    ShowNumInjective(a.serial, b.serial);
    ToFixed4Injective(a.coord.x, b.coord.x);
    ToFixed4Injective(a.coord.y, b.coord.y);
  }

  /** What `fromMomento` leaves in `description` is the memento of the
      pieces it splits the string into. */
  lemma RestoredMemento(cell: Cell, momento: string)
    ensures Memento(cell, Split(momento, ',')) == momento
  {
    JoinSplit(momento, ',');
  }

  class Cache {
    var coinList: seq<Coin>
    var description: string
    const cell: Cell
    var formatList: seq<string>

    /** `coinList` is what restoring `formatList` would give, no token holds
        a comma, and `description` is the memento of `formatList`. */
    ghost predicate Valid()
      reads this
    {
      && coinList == CoinsOf(cell, formatList)
      && (forall k :: 0 <= k < |formatList| ==> ',' !in formatList[k])
      && description == Memento(cell, formatList)
    }

    constructor (cell: Cell)
      ensures Valid() && this.cell == cell
      ensures coinList == [] && formatList == [] && description == CellLabel(cell.x, cell.y)
    {
      this.description := CellLabel(cell.x, cell.y);
      this.cell := cell;
      this.coinList := [];
      this.formatList := [];
    }

    method AddCoin()
      requires Valid()
      modifies this
      ensures Valid()
      ensures coinList == old(coinList) + [Coin(cell, NextSerial(old(coinList)))]
      ensures formatList == old(formatList) + [Token(cell.x, cell.y, NextSerial(old(coinList)))]
      ensures description == Join(formatList, ',')
    {
      var serial := NextSerial(coinList);
      coinList := coinList + [Coin(cell, serial)];
      formatList := formatList + [Token(cell.x, cell.y, serial)];
      description := Join(formatList, ',');
      TokenFields(cell.x, cell.y, serial);
      assert coinList == CoinsOf(cell, formatList);
    }

    /** One display token per coin, in `coinList` order. */
    method Format() returns (res: seq<string>)
      ensures |res| == |coinList|
      ensures forall k :: 0 <= k < |res| ==> res[k] == FormatCoin(coinList[k])
    {
      res := [];
      for k := 0 to |coinList|
        invariant |res| == k
        invariant forall t :: 0 <= t < k ==> res[t] == FormatCoin(coinList[t])
      {
        res := res + [FormatCoin(coinList[k])];
      }
    }

    /** The memento is `description`: the cell's label while the cache is
        empty, otherwise the string whose comma pieces are `formatList`. */
    method ToMomento() returns (momento: string)
      requires Valid()
      ensures momento == description
      ensures coinList == [] ==> momento == CellLabel(cell.x, cell.y)
      ensures coinList != [] ==> Split(momento, ',') == formatList
    {
      momento := description;
      if formatList != [] {
        SplitJoin(formatList, ',');
      }
    }

    method FromMomento(momento: string)
      modifies this
      ensures Valid()
      ensures description == momento
      ensures formatList == Split(momento, ',')
      ensures coinList == CoinsOf(cell, Split(momento, ','))
    {
      description := momento;
      formatList := Split(momento, ',');
      coinList := [];
      for k := 0 to |formatList|
        invariant description == momento && formatList == Split(momento, ',')
        invariant |coinList| == k
        invariant forall t :: 0 <= t < k ==> coinList[t] == Coin(cell, SerialField(formatList[t]))
      {
        coinList := coinList + [Coin(cell, SerialField(formatList[k]))];
      }
      assert coinList == CoinsOf(cell, formatList);
      RestoredMemento(cell, momento);
    }
  }

  /** Restoring the memento of a cache with at least one coin into a fresh
      cache of the same cell gives the same coins and the same `format()`
      output, and the next `addCoin` continues from the last serial. */
  method RestoreRoundTrip(c: Cache) returns (coins: seq<Coin>, original: seq<string>, restored: seq<string>, next: Num)
    requires c.Valid() && |c.coinList| > 0
    ensures coins == c.coinList
    ensures |original| == |c.coinList| && forall k :: 0 <= k < |original| ==> original[k] == FormatCoin(c.coinList[k])
    ensures restored == original
    ensures next == Inc(c.coinList[|c.coinList| - 1].serial)
  {
    var momento := c.ToMomento();
    var copy := new Cache(c.cell);
    copy.FromMomento(momento);
    assert copy.coinList == c.coinList;
    coins := copy.coinList;
    original := c.Format();
    restored := copy.Format();
    copy.AddCoin();
    next := copy.coinList[|copy.coinList| - 1].serial;
  }

  /** A memento without commas or `#` restores to a single coin whose serial
      is NaN: this is what `""` and a fresh cache's `x_y` give. */
  lemma RestoreWithoutFields(cell: Cell, momento: string)
    requires ',' !in momento && '#' !in momento
    ensures CoinsOf(cell, Split(momento, ',')) == [Coin(cell, NaN)]
  {
    SplitNoSep(momento, ',');
    SplitNoSep(momento, '#');
  }

  /** Restoring a fresh cache's memento does not give an empty cache. */
  method RestorePristine(cell: Cell) returns (momento: string, coins: seq<Coin>)
    ensures momento == CellLabel(cell.x, cell.y)
    ensures coins == [Coin(cell, NaN)]
  {
    var c := new Cache(cell);
    momento := c.ToMomento();
    var copy := new Cache(cell);
    copy.FromMomento(momento);
    NotInIntToString(cell.x, ',');
    NotInIntToString(cell.y, ',');
    NotInIntToString(cell.x, '#');
    NotInIntToString(cell.y, '#');
    RestoreWithoutFields(cell, momento);
    coins := copy.coinList;
  }

  lemma ThreeTokens()
    ensures Join([Token(0, 0, Int(0)), Token(0, 0, Int(1)), Token(0, 0, Int(2))], ',') == "0#0#0,0#0#1,0#0#2"
  {
    var tokens := ["0#0#0", "0#0#1", "0#0#2"];
    assert tokens[1..] == ["0#0#1", "0#0#2"] && tokens[1..][1..] == ["0#0#2"];
    assert Join(tokens[1..], ',') == "0#0#1" + [','] + "0#0#2";
    assert Join(tokens, ',') == "0#0#0" + [','] + ("0#0#1" + [','] + "0#0#2");
    assert "0#0#0" + [','] + ("0#0#1" + [','] + "0#0#2") == "0#0#0,0#0#1,0#0#2";
    assert IntToString(0) == "0" && IntToString(1) == "1" && IntToString(2) == "2";
    assert Token(0, 0, Int(0)) == "0#0#0" && Token(0, 0, Int(1)) == "0#0#1" && Token(0, 0, Int(2)) == "0#0#2";
  }

  lemma ThreeDisplayTokens(cell: Cell)
    requires cell.x == 0 && cell.y == 0
    ensures FormatCoin(Coin(cell, Int(0))) == "0.0000:0.0000#0"
    ensures FormatCoin(Coin(cell, Int(1))) == "0.0000:0.0000#1"
    ensures FormatCoin(Coin(cell, Int(2))) == "0.0000:0.0000#2"
  {
    var fixed := "0.0000" + ":" + "0.0000" + "#";
    assert fixed + "0" == "0.0000:0.0000#0" && fixed + "1" == "0.0000:0.0000#1" && fixed + "2" == "0.0000:0.0000#2";
    assert IntToString(0) == "0" && IntToString(1) == "1" && IntToString(2) == "2";
    assert ToFixed4(0) == "0.0000";
  }

  lemma ThreeShown(cell: Cell, coins: seq<Coin>, shown: seq<string>)
    requires cell.x == 0 && cell.y == 0
    requires coins == [Coin(cell, Int(0)), Coin(cell, Int(1)), Coin(cell, Int(2))]
    requires |shown| == |coins| && forall k :: 0 <= k < |shown| ==> shown[k] == FormatCoin(coins[k])
    ensures shown == ["0.0000:0.0000#0", "0.0000:0.0000#1", "0.0000:0.0000#2"]
  {
    ThreeDisplayTokens(cell);
    assert shown[0] == "0.0000:0.0000#0" && shown[1] == "0.0000:0.0000#1" && shown[2] == "0.0000:0.0000#2";
  }

  /** A new cache with three `addCoin` calls. */
  method FillThree(cell: Cell) returns (c: Cache)
    requires cell.x == 0 && cell.y == 0
    ensures c.Valid() && fresh(c)
    ensures c.coinList == [Coin(cell, Int(0)), Coin(cell, Int(1)), Coin(cell, Int(2))]
    ensures c.formatList == [Token(0, 0, Int(0)), Token(0, 0, Int(1)), Token(0, 0, Int(2))]
    ensures c.description == Join(c.formatList, ',')
  {
    c := new Cache(cell);
    c.AddCoin();
    assert c.coinList == [Coin(cell, Int(0))];
    c.AddCoin();
    assert c.coinList == [Coin(cell, Int(0)), Coin(cell, Int(1))];
    c.AddCoin();
  }

  /** Three `addCoin` calls on a cache of cell (0, 0). */
  method ThreeCoins(cell: Cell) returns (momento: string, shown: seq<string>)
    requires cell.x == 0 && cell.y == 0
    ensures momento == "0#0#0,0#0#1,0#0#2"
    ensures shown == ["0.0000:0.0000#0", "0.0000:0.0000#1", "0.0000:0.0000#2"]
  {
    var c := FillThree(cell);
    ThreeTokens();
    momento := c.ToMomento();
    shown := c.Format();
    ThreeShown(cell, c.coinList, shown);
  }

  lemma GapTokens()
    ensures Split("5#-3#0,5#-3#2", ',') == [Token(5, -3, Int(0)), Token(5, -3, Int(2))]
    ensures SerialField(Token(5, -3, Int(0))) == Int(0) && SerialField(Token(5, -3, Int(2))) == Int(2)
  {
    assert "5#-3#0,5#-3#2" == "5#-3#0" + [','] + "5#-3#2";
    assert IntToString(5) == "5" && IntToString(-3) == "-3";
    assert Token(5, -3, Int(0)) == "5#-3#0" && Token(5, -3, Int(2)) == "5#-3#2";
    TokenFields(5, -3, Int(0));
    TokenFields(5, -3, Int(2));
    Split2("5#-3#0", "5#-3#2", ',');
  }

  /** Restoring `5#-3#0,5#-3#2` keeps the serial gap, and the next coin
      continues from 2. */
  method RestoreWithGap(cell: Cell) returns (serials: seq<Num>, next: Num)
    ensures serials == [Int(0), Int(2)]
    ensures next == Int(3)
  {
    var c := new Cache(cell);
    c.FromMomento("5#-3#0,5#-3#2");
    GapTokens();
    serials := [c.coinList[0].serial, c.coinList[1].serial];
    c.AddCoin();
    next := c.coinList[2].serial;
  }
}
