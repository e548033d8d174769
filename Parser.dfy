/** MessageParser.java: the messages between server and client, written as
    gameId/playerId/code/parameters with fields joined by '/'. */
module Messages {

  /** Java's int. */
  type Int32 = x: int | -0x8000_0000 <= x < 0x8000_0000

  /** The exceptions the getters can throw. */
  datatype Failure =
    | IndexOutOfBounds   // ArrayList.get past the last field
    | NumberFormat       // Integer.parseInt on text that is not a decimal int

  datatype Result<T> = Ok(value: T) | Err(failure: Failure)

  const Separator: char := '/'

  /** MessageParser.Action. */
  datatype Action = Accept | Deny | Bid | Fold | Hand | Start | Disconnect | Eval | End | Draw | Credit | Prize

  /** The three-letter code parse(int, int, Action, String) writes for each action. */
  function Code(a: Action): (c: string)
    ensures |c| == 3 && Separator !in c
  {
    match a
    case Accept => "acc"
    case Deny => "den"
    case Bid => "bid"
    case Fold => "fol"
    case Hand => "han"
    case Start => "srt"
    case Disconnect => "dsc"
    case Eval => "evl"
    case End => "end"
    case Draw => "drw"
    case Credit => "crd"
    case Prize => "prz"
  }

  /** getActionType on the code field: the action a code stands for, and
      DENY for any other text (its own code "den" included). */
  function ActionOf(code: string): (a: Action)
    ensures a != Deny ==> Code(a) == code
    ensures forall b :: Code(b) == code ==> a == b
  {
    if code == "acc" then Accept
    else if code == "bid" then Bid
    else if code == "fol" then Fold
    else if code == "han" then Hand
    else if code == "srt" then Start
    else if code == "dsc" then Disconnect
    else if code == "evl" then Eval
    else if code == "end" then End
    else if code == "drw" then Draw
    else if code == "crd" then Credit
    else if code == "prz" then Prize
    else Deny
  }

  // ---------------------------------------------------------------- joining and splitting

  /** The fields with a separator between each two of them and none at the end. */
  function Join(fields: seq<string>): string
  {
    if |fields| == 0 then ""
    else if |fields| == 1 then fields[0]
    else fields[0] + [Separator] + Join(fields[1..])
  }

  /** Joining one more field adds a separator and the field at the end. */
  lemma {:induction false} JoinSnoc(fields: seq<string>, x: string)
    requires fields != []
    ensures Join(fields + [x]) == Join(fields) + [Separator] + x
  {
    if |fields| > 1 {
      assert (fields + [x])[1..] == fields[1..] + [x];
      JoinSnoc(fields[1..], x);
    }
  }

  /** The text between separators, every separator counted, so a text of n
      separators has n + 1 pieces (String.split before it drops trailing
      empty strings). */
  function Pieces(s: string): (r: seq<string>)
    ensures |r| >= 1
  {
    if s == "" then [""]
    else
      var rest := Pieces(s[1..]);
      if s[0] == Separator then [""] + rest
      else [[s[0]] + rest[0]] + rest[1..]
  }

  /** A text without separators is a single piece. */
  lemma {:induction false} PiecesPlain(s: string)
    requires Separator !in s
    ensures Pieces(s) == [s]
  {
    if s != "" {
      assert Separator !in s[1..] by {
        assert forall k :: 0 <= k < |s| - 1 ==> s[1..][k] == s[k + 1];
      }
      PiecesPlain(s[1..]);
      assert s == [s[0]] + s[1..];
    }
  }

  /** No piece holds a separator. */
  lemma {:induction false} PiecesClean(s: string)
    ensures forall k :: 0 <= k < |Pieces(s)| ==> Separator !in Pieces(s)[k]
  {
    if s != "" {
      PiecesClean(s[1..]);
      var rest := Pieces(s[1..]);
      if s[0] != Separator {
        assert Separator !in [s[0]] + rest[0];
      }
    }
  }

  /** A field followed by a separator is a piece of its own. */
  lemma {:induction false} PiecesAppend(a: string, t: string)
    requires Separator !in a
    ensures Pieces(a + [Separator] + t) == [a] + Pieces(t)
  {
    var s := a + [Separator] + t;
    if a == "" {
      assert s[1..] == t;
    } else {
      assert s[1..] == a[1..] + [Separator] + t;
      PiecesAppend(a[1..], t);
      assert a == [a[0]] + a[1..];
    }
  }

  /** Splitting joined fields gives back every field but the last, which
      holds no separator, and then the pieces of the last. */
  lemma {:induction false} PiecesOfJoinLast(fields: seq<string>)
    requires fields != [] && forall k :: 0 <= k < |fields| - 1 ==> Separator !in fields[k]
    ensures Pieces(Join(fields)) == fields[..|fields| - 1] + Pieces(fields[|fields| - 1])
  {
    var n := |fields|;
    if n > 1 {
      var tail := fields[1..];
      var last := fields[n - 1];
      assert Join(fields) == fields[0] + [Separator] + Join(tail);
      PiecesOfJoinLast(tail);
      assert tail[|tail| - 1] == last;
      assert Pieces(Join(tail)) == tail[..n - 2] + Pieces(last);
      PiecesAppend(fields[0], Join(tail));
      assert fields[..n - 1] == [fields[0]] + tail[..n - 2];
    }
  }

  /** Splitting joined fields that hold no separator gives the fields back. */
  lemma {:induction false} PiecesOfJoin(fields: seq<string>)
    requires fields != [] && forall k :: 0 <= k < |fields| ==> Separator !in fields[k]
    ensures Pieces(Join(fields)) == fields
  {
    var last := fields[|fields| - 1];
    PiecesOfJoinLast(fields);
    PiecesPlain(last);
    assert fields[..|fields| - 1] + [last] == fields;
  }

  /** Two or more joined fields hold a separator. */
  lemma {:induction false} JoinHasSeparator(fields: seq<string>)
    requires |fields| > 1
    ensures Separator in Join(fields)
  {
    assert Join(fields)[|fields[0]|] == Separator;
  }

  /** The pieces without the empty ones at the end. */
  function DropTrailingEmpty(r: seq<string>): (d: seq<string>)
    ensures |d| <= |r| && d == r[..|d|]
    ensures d == [] || d[|d| - 1] != ""
    ensures forall k :: |d| <= k < |r| ==> r[k] == ""
  {
    if r != [] && r[|r| - 1] == "" then DropTrailingEmpty(r[..|r| - 1]) else r
  }

  /** Pieces before a last non-empty one are kept whatever follows them. */
  lemma {:induction false} DropAfterNonEmpty(a: seq<string>, b: seq<string>)
    requires a != [] && a[|a| - 1] != ""
    ensures DropTrailingEmpty(a + b) == a + DropTrailingEmpty(b)
    decreases |b|
  {
    if b != [] && b[|b| - 1] == "" {
      assert (a + b)[..|a + b| - 1] == a + b[..|b| - 1];
      DropAfterNonEmpty(a, b[..|b| - 1]);
    }
  }

  /** String.split("/"): the pieces with trailing empty strings dropped, and
      the text itself when it holds no separator, so "" splits into [""]. */
  function JavaSplit(s: string): (r: seq<string>)
    ensures forall k :: 0 <= k < |r| ==> Separator !in r[k]
    ensures Separator !in s ==> r == [s]
    ensures Separator in s ==> |r| <= |Pieces(s)| && r == Pieces(s)[..|r|] && (r == [] || r[|r| - 1] != "")
  {
    if Separator !in s then [s]
    else
      PiecesClean(s);
      DropTrailingEmpty(Pieces(s))
  }

  /** Splitting joined fields without separators gives them back, except the
      empty ones at the end when there are at least two. */
  lemma {:induction false} SplitJoin(fields: seq<string>)
    requires fields != [] && forall k :: 0 <= k < |fields| ==> Separator !in fields[k]
    ensures JavaSplit(Join(fields)) == if |fields| == 1 then fields else DropTrailingEmpty(fields)
  {
    PiecesOfJoin(fields);
    if |fields| > 1 {
      JoinHasSeparator(fields);
    }
  }

  // ---------------------------------------------------------------- integers

  predicate IsDigits(s: string)
  {
    forall k :: 0 <= k < |s| ==> '0' <= s[k] <= '9'
  }

  /** The value of a decimal numeral, most significant digit first. */
  function DigitsValue(s: string): nat
    requires IsDigits(s)
  {
    if s == "" then 0 else DigitsValue(s[..|s| - 1]) * 10 + (s[|s| - 1] as int - '0' as int)
  }

  /** The decimal numeral of a natural number, with no leading zero. */
  function NatToString(n: nat): (s: string)
    ensures s != "" && IsDigits(s) && DigitsValue(s) == n
    ensures |s| > 1 ==> s[0] != '0'
  {
    var d := ['0' + ((n % 10) as char)];
    if n < 10 then d
    else
      var front := NatToString(n / 10);
      var s := front + d;
      assert s[..|s| - 1] == front;
      s
  }

  /** String.valueOf(int): a minus sign before negative numbers. */
  function IntToString(x: int): (s: string)
    ensures s != "" && Separator !in s
    ensures (x < 0) == (s[0] == '-')
  {
    if x < 0 then "-" + NatToString(-x) else NatToString(x)
  }

  /** Integer.parseInt: an optional sign, then at least one decimal digit,
      and a value within the range of int; anything else fails. */
  function ParseInt(s: string): (r: Result<Int32>)
    ensures r.Err? ==> r.failure == NumberFormat
    ensures r.Ok? ==> s != "" && IsDigits(s[1..]) && (r.value < 0 ==> s[0] == '-')
    ensures r.Ok? ==>
              var digits := if s[0] == '-' || s[0] == '+' then s[1..] else s;
              digits != "" && IsDigits(digits)
              && r.value == (if s[0] == '-' then -(DigitsValue(digits) as int) else DigitsValue(digits))
    ensures var digits := if s != "" && (s[0] == '-' || s[0] == '+') then s[1..] else s;
            r.Ok? <==> digits != "" && IsDigits(digits)
                       && -0x8000_0000 <= (if s[0] == '-' then -(DigitsValue(digits) as int) else DigitsValue(digits))
                       && (if s[0] == '-' then -(DigitsValue(digits) as int) else DigitsValue(digits)) < 0x8000_0000
  {
    var signed := s != "" && (s[0] == '-' || s[0] == '+');
    var digits := if signed then s[1..] else s;
    if digits == "" || !IsDigits(digits) then Err(NumberFormat)
    else
      var v: int := if signed && s[0] == '-' then -(DigitsValue(digits) as int) else DigitsValue(digits);
      if -0x8000_0000 <= v < 0x8000_0000 then Ok(v) else Err(NumberFormat)
  }

  /** Integer.parseInt reads back what String.valueOf wrote. */
  lemma {:induction false} ParseIntToString(x: Int32)
    ensures ParseInt(IntToString(x)) == Ok(x)
  {
    var n: int := x;
    var s := IntToString(n);
    if n < 0 {
      var digits := NatToString(-n);
      assert s == "-" + digits && s[1..] == digits;
      assert ParseInt(s) == Ok(-(DigitsValue(digits) as int));
    } else {
      var digits := NatToString(n);
      assert s == digits && s[0] != '-' && s[0] != '+';
      assert ParseInt(s) == Ok(DigitsValue(digits));
    }
  }

  // ---------------------------------------------------------------- the parser

  /** The fields parse(int, int, Action, String) stores. */
  function Fields(gameId: Int32, playerId: Int32, action: Action, parameters: string): seq<string>
  {
    [IntToString(gameId), IntToString(playerId), Code(action), parameters]
  }

  class MessageParser {
    /** The fields of the last message. */
    var args: seq<string>

    /** MessageParser(): no fields. */
    constructor()
      ensures args == []
    {
      args := [];
    }

    /** MessageParser(message): parses the message. */
    constructor FromMessage(message: string)
      ensures args == JavaSplit(message)
    {
      args := JavaSplit(message);
    }

    /** parse(String): the fields become the message split at each '/'. */
    method Parse(message: string)
      modifies this`args
      ensures args == JavaSplit(message)
    {
      args := [];
      args := args + JavaSplit(message);
    }

    /** parse(int, int, Action, String): the fields become the two ids, the
        action's code and the parameters, and the message is their join. */
    method Compose(gameId: Int32, playerId: Int32, action: Action, actionParameters: string)
      returns (message: string)
      modifies this`args
      ensures args == Fields(gameId, playerId, action, actionParameters)
      ensures message == Join(args)
    {
      args := [];
      args := args + [IntToString(gameId)];
      args := args + [IntToString(playerId)];
      args := args + [Code(action)];
      args := args + [actionParameters];
      message := GetMessage();
    }

    /** getGameId: the first field read as an int; no field or a first field
        that is no int fails. */
    function GameId(): (r: Result<Int32>)
      reads this
      ensures r == Err(IndexOutOfBounds) <==> args == []
      ensures r.Ok? ==> args[0] != "" && (r.value < 0 ==> args[0][0] == '-')
    {
      if args == [] then Err(IndexOutOfBounds) else ParseInt(args[0])
    }

    /** getPlayerId: the second field read as an int. */
    function PlayerId(): (r: Result<Int32>)
      reads this
      ensures r == Err(IndexOutOfBounds) <==> |args| < 2
      ensures r.Ok? ==> args[1] != "" && (r.value < 0 ==> args[1][0] == '-')
    {
      if |args| < 2 then Err(IndexOutOfBounds) else ParseInt(args[1])
    }

    /** getActionType: the action of the third field's code, DENY for an
        unknown code; fewer than three fields fails. */
    function ActionType(): (r: Result<Action>)
      reads this
      ensures r.Err? <==> |args| < 3
      ensures r.Ok? && r.value != Deny ==> args[2] == Code(r.value)
      ensures |args| >= 3 && (exists b :: Code(b) == args[2]) ==> r.Ok? && Code(r.value) == args[2]
    {
      if |args| < 3 then Err(IndexOutOfBounds) else Ok(ActionOf(args[2]))
    }

    /** getActionParameters: the fourth field, or "" when there is none. */
    function ActionParameters(): (p: string)
      reads this
      ensures |args| < 4 ==> p == ""
      ensures |args| >= 4 ==> p == args[3]
    {
      if |args| < 4 then "" else args[3]
    }

    /** getMessage (and toString): the fields joined by '/', built up in a
        StringBuilder one field and one separator at a time. */
    method GetMessage() returns (message: string)
      ensures message == Join(args)
    {
      var builder := "";
      var i := 0;
      while i < |args|
        invariant 0 <= i <= |args|
        invariant builder == Join(args[..i]) + (if 0 < i < |args| then [Separator] else "")
      {
        if i > 0 {
          JoinSnoc(args[..i], args[i]);
          assert args[..i + 1] == args[..i] + [args[i]];
        }
        builder := builder + args[i];
        if i < |args| - 1 {
          builder := builder + [Separator];
        }
        i := i + 1;
      }
      assert args[..i] == args;
      message := builder;
    }
  }

  // ---------------------------------------------------------------- round trips

  /** After parse(int, int, Action, String) the getters give back what was
      written. */
  lemma {:induction false} ComposedFields(mp: MessageParser, gameId: Int32, playerId: Int32, action: Action, parameters: string)
    requires mp.args == Fields(gameId, playerId, action, parameters)
    ensures mp.GameId() == Ok(gameId) && mp.PlayerId() == Ok(playerId)
    ensures mp.ActionType() == Ok(action) && mp.ActionParameters() == parameters
  {
    ReadBack(mp, gameId, playerId, action, [parameters], parameters);
  }

  /** The pieces of a composed message: the three leading fields, then the
      pieces of the parameters. */
  lemma {:induction false} MessagePieces(g: string, p: string, c: string, parameters: string)
    requires Separator !in g && Separator !in p && Separator !in c
    ensures var m := Join([g, p, c, parameters]);
            Separator in m && Pieces(m) == [g, p, c] + Pieces(parameters)
  {
    var fields := [g, p, c, parameters];
    PiecesOfJoinLast(fields);
    JoinHasSeparator(fields);
    assert fields[..3] == [g, p, c];
  }

  /** The split of a composed message: its three leading fields, then the
      pieces of the parameters without the empty ones at the end; the first
      of those, when any is left, is the first piece of the parameters, and
      when none is left that piece was empty. */
  lemma {:induction false} ComposedSplit(gameId: Int32, playerId: Int32, action: Action, parameters: string)
    ensures var rest := DropTrailingEmpty(Pieces(parameters));
            JavaSplit(Join(Fields(gameId, playerId, action, parameters)))
              == [IntToString(gameId), IntToString(playerId), Code(action)] + rest
            && (rest != [] ==> rest[0] == Pieces(parameters)[0])
            && (rest == [] ==> Pieces(parameters)[0] == "")
  {
    var g, p, c := IntToString(gameId), IntToString(playerId), Code(action);
    var pieces := Pieces(parameters);
    MessagePieces(g, p, c, parameters);
    DropAfterNonEmpty([g, p, c], pieces);
  }

  /** The getters on the two ids and a code, followed by fields that start
      with `first` or by none when `first` is empty. */
  lemma {:induction false} ReadBack(mp: MessageParser, gameId: Int32, playerId: Int32, action: Action,
                 rest: seq<string>, first: string)
    requires mp.args == [IntToString(gameId), IntToString(playerId), Code(action)] + rest
    requires (rest != [] ==> rest[0] == first) && (rest == [] ==> first == "")
    ensures mp.GameId() == Ok(gameId) && mp.PlayerId() == Ok(playerId) && mp.ActionType() == Ok(action)
    ensures mp.ActionParameters() == first
  {
    assert mp.GameId() == Ok(gameId) by {
      assert mp.args[0] == IntToString(gameId);
      ParseIntToString(gameId);
    }
    assert mp.PlayerId() == Ok(playerId) by {
      assert mp.args[1] == IntToString(playerId);
      ParseIntToString(playerId);
    }
    assert mp.args[2] == Code(action);
  }

  /** A message composed from the ids, an action and parameters, parsed again:
      the getters give back the ids and the action, and as parameters the
      text before their first '/', so all of them when they hold none
      (empty parameters come back as "" although split drops the empty field). */
  lemma {:induction false} ParseComposed(mp: MessageParser, gameId: Int32, playerId: Int32, action: Action, parameters: string)
    requires mp.args == JavaSplit(Join(Fields(gameId, playerId, action, parameters)))
    ensures mp.GameId() == Ok(gameId) && mp.PlayerId() == Ok(playerId) && mp.ActionType() == Ok(action)
    ensures mp.ActionParameters() == Pieces(parameters)[0]
    ensures Separator !in parameters ==> mp.ActionParameters() == parameters
  {
    ComposedSplit(gameId, playerId, action, parameters);
    ReadBack(mp, gameId, playerId, action, DropTrailingEmpty(Pieces(parameters)), Pieces(parameters)[0]);
    if Separator !in parameters {
      PiecesPlain(parameters);
    }
  }
}
