/**
 * The textual form of a sliding-puzzle board, as the string constructor of
 * `Board` reads it: numbers separated by spaces, rows separated by `|`, and
 * `_` standing for the empty tile (value 0).
 */
module BoardText {
  import opened Wrappers
  import opened JavaLang

  /** A token of the board string after splitting: a row separator or a number. */
  datatype Token = Bar | Number(n: int)

  /** A cell of a board. */
  datatype Position = Position(row: int, column: int)

  /** `replace("|", " | ").replace('_', '0')`: every bar gets a space on each side. */
  function Widen(s: string): (w: string)
    ensures (forall i :: 0 <= i < |s| ==> s[i] != '|' && s[i] != '_') ==> w == s
    ensures '_' !in w
    ensures forall i :: 0 <= i < |w| && w[i] == '|' ==> 0 < i < |w| - 1 && w[i - 1] == ' ' && w[i + 1] == ' '
  {
    if s == [] then []
    else (if s[0] == '|' then " | " else if s[0] == '_' then "0" else [s[0]]) + Widen(s[1..])
  }

  /** Every piece between two spaces, empty pieces included (`split` with a negative limit). */
  function SplitAll(s: string): (pieces: seq<string>)
    ensures |pieces| >= 1
    ensures forall i :: 0 <= i < |pieces| ==> ' ' !in pieces[i]
  {
    if s == [] then [""]
    else if s[|s| - 1] == ' ' then SplitAll(s[..|s| - 1]) + [""]
    else
      var p := SplitAll(s[..|s| - 1]);
      p[..|p| - 1] + [p[|p| - 1] + [s[|s| - 1]]]
  }

  function DropTrailingEmpty(pieces: seq<string>): (r: seq<string>)
    ensures r <= pieces
    ensures r == [] || r[|r| - 1] != ""
    ensures forall i :: |r| <= i < |pieces| ==> pieces[i] == ""
  {
    if pieces == [] || pieces[|pieces| - 1] != "" then pieces
    else DropTrailingEmpty(pieces[..|pieces| - 1])
  }

  /**
   * `split(" ")`: with no space the whole string is the only piece; otherwise the
   * pieces between spaces, with trailing empty pieces removed.
   */
  function SplitOnSpace(s: string): (pieces: seq<string>)
    ensures forall i :: 0 <= i < |pieces| ==> ' ' !in pieces[i]
  {
    if ' ' !in s then [s] else DropTrailingEmpty(SplitAll(s))
  }

  /** `"|"` is a separator; anything else goes through `Integer.parseInt`, which may fail. */
  function ReadTokens(pieces: seq<string>): (r: Option<seq<Token>>)
    ensures r.Some? ==> |r.value| == |pieces|
    ensures r.Some? ==> forall i :: 0 <= i < |pieces| ==> (r.value[i] == Bar <==> pieces[i] == "|")
    ensures r.None? <==> exists i :: 0 <= i < |pieces| && pieces[i] != "|" && ParseInt(pieces[i]).None?
  {
    if pieces == [] then Some([])
    else
      var last := pieces[|pieces| - 1];
      match ReadTokens(pieces[..|pieces| - 1])
      case None => None
      case Some(front) =>
        if last == "|" then Some(front + [Bar])
        else match ParseInt(last)
          case None => None
          case Some(n) => Some(front + [Number(n)])
  }

  /** The token sequence the string constructor loops over; `None` where `parseInt` throws. */
  function Lex(boardString: string): Option<seq<Token>> {
    ReadTokens(SplitOnSpace(Widen(boardString)))
  }

  function BarCount(t: seq<Token>): nat {
    if t == [] then 0 else BarCount(t[..|t| - 1]) + (if t[|t| - 1] == Bar then 1 else 0)
  }

  /** The rows the tokens describe: a bar starts a new row, a number extends the current one. */
  function Rows(t: seq<Token>): (rows: seq<seq<int>>)
    ensures |rows| == 1 + BarCount(t)
  {
    if t == [] then [[]]
    else
      var front := Rows(t[..|t| - 1]);
      match t[|t| - 1]
      case Bar => front + [[]]
      case Number(n) => front[..|front| - 1] + [front[|front| - 1] + [n]]
  }

  function Numbers(row: seq<int>): (t: seq<Token>)
    ensures |t| == |row|
    ensures forall i :: 0 <= i < |row| ==> t[i] == Number(row[i])
  {
    if row == [] then [] else Numbers(row[..|row| - 1]) + [Number(row[|row| - 1])]
  }

  /** The token sequence of a list of rows: their numbers, with a bar between two rows. */
  function Join(rows: seq<seq<int>>): seq<Token>
    requires |rows| >= 1
  {
    if |rows| == 1 then Numbers(rows[0])
    else Join(rows[..|rows| - 1]) + [Bar] + Numbers(rows[|rows| - 1])
  }

  lemma JoinAppendNumber(rs: seq<seq<int>>, n: int)
    requires |rs| >= 1
    ensures Join(rs[..|rs| - 1] + [rs[|rs| - 1] + [n]]) == Join(rs) + [Number(n)]
  {
    var last := rs[|rs| - 1];
    var rs' := rs[..|rs| - 1] + [last + [n]];
    assert (last + [n])[..|last|] == last;
    assert Numbers(last + [n]) == Numbers(last) + [Number(n)];
    if |rs| > 1 {
      assert rs'[..|rs'| - 1] == rs[..|rs| - 1];
    }
  }

  lemma JoinAppendEmpty(rs: seq<seq<int>>)
    requires |rs| >= 1
    ensures Join(rs + [[]]) == Join(rs) + [Bar]
  {
    assert (rs + [[]])[..|rs|] == rs;
  }

  /** Splitting into rows loses nothing: joining the rows gives back the tokens. */
  lemma {:induction false} JoinRows(t: seq<Token>)
    ensures Join(Rows(t)) == t
  {
    if t != [] {
      var front := t[..|t| - 1];
      JoinRows(front);
      assert t == front + [t[|t| - 1]];
      match t[|t| - 1]
      case Bar => JoinAppendEmpty(Rows(front));
      case Number(n) => JoinAppendNumber(Rows(front), n);
    }
  }

  /** `a` is what `b` looks like part way through: complete rows agree, the last row is a prefix. */
  ghost predicate Extends(a: seq<seq<int>>, b: seq<seq<int>>) {
    1 <= |a| <= |b|
    && (forall r :: 0 <= r < |a| - 1 ==> a[r] == b[r])
    && a[|a| - 1] <= b[|a| - 1]
  }

  lemma RowsExtendStep(t: seq<Token>, x: Token)
    ensures Extends(Rows(t), Rows(t + [x]))
  {
    assert (t + [x])[..|t|] == t;
  }

  lemma ExtendsTransitive(a: seq<seq<int>>, b: seq<seq<int>>, c: seq<seq<int>>)
    requires Extends(a, b) && Extends(b, c)
    ensures Extends(a, c)
  {
    if |a| < |b| {
      assert a[|a| - 1] <= b[|a| - 1] == c[|a| - 1];
    }
  }

  /** The rows read from a prefix of the tokens are a partial view of the final rows. */
  lemma {:induction false} RowsOfPrefix(t: seq<Token>, k: nat)
    requires k <= |t|
    ensures Extends(Rows(t[..k]), Rows(t))
    decreases |t|
  {
    if k == |t| {
      assert t[..k] == t;
    } else {
      var front := t[..|t| - 1];
      assert t[..k] == front[..k];
      assert t == front + [t[|t| - 1]];
      RowsOfPrefix(front, k);
      RowsExtendStep(front, t[|t| - 1]);
      ExtendsTransitive(Rows(t[..k]), Rows(front), Rows(t));
    }
  }

  /**
   * Where the constructor leaves the empty-tile location: the cell of the last
   * 0 in the tokens, or (0, 0), the fields' initial value, when there is none.
   */
  function LastZero(t: seq<Token>): Position {
    if t == [] then Position(0, 0)
    else
      var front := t[..|t| - 1];
      if t[|t| - 1] == Number(0) then
        var rs := Rows(front);
        Position(|rs| - 1, |rs[|rs| - 1]|)
      else LastZero(front)
  }

  /** Reading a bar: a new, empty row starts, and the row it closes is complete. */
  lemma ReadBar(t: seq<Token>, k: nat)
    requires k < |t| && t[k] == Bar
    ensures var r := Rows(t[..k]);
      Rows(t[..k + 1]) == r + [[]] && |r| < |Rows(t)| && r[|r| - 1] == Rows(t)[|r| - 1]
      && LastZero(t[..k + 1]) == LastZero(t[..k])
  {
    assert t[..k + 1] == t[..k] + [Bar];
    assert t[..k + 1][..k] == t[..k];
    RowsOfPrefix(t, k + 1);
  }

  /** Reading a number: it is the next cell of the current row of the final rows. */
  lemma ReadNumber(t: seq<Token>, k: nat)
    requires k < |t| && t[k].Number?
    ensures var r := Rows(t[..k]); var last := r[|r| - 1];
      Rows(t[..k + 1]) == r[..|r| - 1] + [last + [t[k].n]]
      && |r| <= |Rows(t)| && |last| < |Rows(t)[|r| - 1]| && Rows(t)[|r| - 1][|last|] == t[k].n
      && LastZero(t[..k + 1]) == if t[k].n == 0 then Position(|r| - 1, |last|) else LastZero(t[..k])
  {
    assert t[..k + 1] == t[..k] + [t[k]];
    assert t[..k + 1][..k] == t[..k];
    RowsOfPrefix(t, k + 1);
    var r := Rows(t[..k]);
    var last := r[|r| - 1];
    assert Rows(t[..k + 1])[|r| - 1] == last + [t[k].n];
  }

  /** When the string has an empty tile, `LastZero` names a cell holding 0. */
  lemma {:induction false} LastZeroIsEmpty(t: seq<Token>)
    requires Number(0) in t
    ensures var p := LastZero(t);
      0 <= p.row < |Rows(t)| && 0 <= p.column < |Rows(t)[p.row]| && Rows(t)[p.row][p.column] == 0
  {
    var front := t[..|t| - 1];
    assert t == front + [t[|t| - 1]];
    var rs := Rows(front);
    if t[|t| - 1] == Number(0) {
      assert Rows(t) == rs[..|rs| - 1] + [rs[|rs| - 1] + [0]];
    } else {
      assert Number(0) in front;
      LastZeroIsEmpty(front);
      RowsExtendStep(front, t[|t| - 1]);
      var p := LastZero(front);
      if p.row == |rs| - 1 {
        assert rs[p.row] <= Rows(t)[p.row];
      }
    }
  }
}
