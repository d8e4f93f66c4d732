/** Strings as lists: joining with a separator, splitting at it, trimming, and the CREATE INDEX command. */
module SchemaText {
  import opened Bytes
  import DecimalText

  function Join(ss: seq<string>, sep: char): string
  {
    if ss == [] then ""
    else if |ss| == 1 then ss[0]
    else ss[0] + [sep] + Join(ss[1..], sep)
  }

  /** boost::split at one character: a string with n separators has n + 1 pieces. */
  function Split(s: string, sep: char): (ss: seq<string>)
    ensures ss != []
  {
    if s == "" then [""] else PutFirst(s[0], Split(s[1..], sep), sep)
  }

  /** One more character in front: a piece of its own or part of the first. */
  function PutFirst(c: char, ss: seq<string>, sep: char): (r: seq<string>)
    requires ss != []
    ensures |r| == if c == sep then |ss| + 1 else |ss|
  {
    if c == sep then [""] + ss else [[c] + ss[0]] + ss[1..]
  }

  predicate IsSpace(c: char)
  {
    c == ' ' || c == '\t' || c == '\n' || c == '\r' || c == '\U{0B}' || c == '\U{0C}'
  }

  /** boost::trim. */
  function Trim(s: string): (t: string)
    ensures |t| <= |s| && forall c :: c in t ==> c in s
    ensures t == "" || (!IsSpace(t[0]) && !IsSpace(Last(t)))
    ensures s == "" || (!IsSpace(s[0]) && !IsSpace(Last(s))) ==> t == s
    decreases |s|
  {
    if s == "" then ""
    else if IsSpace(s[0]) then Trim(s[1..])
    else if IsSpace(Last(s)) then Trim(s[..|s| - 1])
    else s
  }

  /** rfind of one character. */
  function LastIndex(s: string, c: char): (i: Option<nat>)
    ensures i.None? ==> c !in s
    ensures i.Some? ==> i.value < |s| && s[i.value] == c && c !in s[i.value + 1..]
  {
    if s == "" then None
    else if Last(s) == c then Some(|s| - 1)
    else
      var i := LastIndex(s[..|s| - 1], c);
      assert i.Some? ==> s[i.value + 1..] == s[..|s| - 1][i.value + 1..] + [Last(s)];
      assert s == s[..|s| - 1] + [Last(s)];
      i
  }

  function Decimal(n: nat): string
  {
    if n < 10 then [DecimalText.DigitChar(n)] else Decimal(n / 10) + [DecimalText.DigitChar(n % 10)]
  }

  /** All of the n-th CREATE INDEX command before its column list. */
  function CommandHead(table: string, n: nat): string
  {
    "CREATE INDEX " + table + "_Index" + Decimal(n) + " ON " + table
  }

  function Command(table: string, n: nat, columns: seq<string>): string
  {
    CommandHead(table, n) + "(" + Join(columns, ',') + ")"
  }

  /** What is left of a list of names after it went through a command: cut at commas, without what stands before an
      opening parenthesis, trimmed. */
  function Listed(columns: seq<string>): (names: seq<string>)
    ensures names != []
  {
    var text := Join(columns, ',');
    var i := LastIndex(text, '(');
    TrimAll(Split(if i.Some? then text[i.value + 1..] else text, ','))
  }

  function TrimAll(ss: seq<string>): (ts: seq<string>)
    ensures |ts| == |ss| && forall i :: 0 <= i < |ss| ==> ts[i] == Trim(ss[i])
  {
    if ss == [] then [] else [Trim(ss[0])] + TrimAll(ss[1..])
  }

  function JoinAll(lists: seq<seq<string>>): (ss: seq<string>)
    ensures |ss| == |lists| && forall i :: 0 <= i < |lists| ==> ss[i] == Join(lists[i], ',')
  {
    if lists == [] then [] else [Join(lists[0], ',')] + JoinAll(lists[1..])
  }

  function SplitAll(ss: seq<string>): (lists: seq<seq<string>>)
    ensures |lists| == |ss| && forall i :: 0 <= i < |ss| ==> lists[i] == Split(ss[i], ',')
  {
    if ss == [] then [] else [Split(ss[0], ',')] + SplitAll(ss[1..])
  }

  predicate Free(ss: seq<string>, c: char)
  {
    forall i :: 0 <= i < |ss| ==> c !in ss[i]
  }

  // ----- joining and splitting undo each other -----

  lemma {:induction false} PiecesAreFree(s: string, sep: char, c: char)
    requires c == sep || c !in s
    ensures Free(Split(s, sep), c)
  {
    if s != "" { PiecesAreFree(s[1..], sep, c); }
  }

  lemma {:induction false} SplitOfOne(s: string, sep: char)
    ensures Split(s, sep) == [s] <==> sep !in s
    ensures |Split(s, sep)| == 1 <==> sep !in s
  {
    if s != "" {
      SplitOfOne(s[1..], sep);
      assert s == [s[0]] + s[1..];
    }
  }

  lemma {:induction false} SplitConcat(a: string, b: string, sep: char)
    ensures Split(a + [sep] + b, sep) == Split(a, sep) + Split(b, sep)
  {
    var s := a + [sep] + b;
    if a == "" {
      assert s[1..] == b;
    } else {
      SplitConcat(a[1..], b, sep);
      assert s[1..] == a[1..] + [sep] + b && s[0] == a[0];
      PutFirstConcat(a[0], Split(a[1..], sep), Split(b, sep), sep);
    }
  }

  lemma PutFirstConcat(c: char, a: seq<string>, b: seq<string>, sep: char)
    requires a != []
    ensures PutFirst(c, a + b, sep) == PutFirst(c, a, sep) + b
  {
    assert (a + b)[1..] == a[1..] + b;
  }

  /** Splitting what was joined gives the list back exactly if it had the separator in no element; otherwise it gives
      more elements. */
  lemma {:induction false} SplitJoin(ss: seq<string>, sep: char)
    requires ss != []
    ensures |Split(Join(ss, sep), sep)| >= |ss|
    ensures Free(ss, sep) <==> |Split(Join(ss, sep), sep)| == |ss|
    ensures Free(ss, sep) <==> Split(Join(ss, sep), sep) == ss
  {
    SplitOfOne(ss[0], sep);
    if |ss| > 1 {
      SplitJoin(ss[1..], sep);
      SplitConcat(ss[0], Join(ss[1..], sep), sep);
      assert ss == [ss[0]] + ss[1..];
      assert Free(ss, sep) <==> sep !in ss[0] && Free(ss[1..], sep);
    }
  }

  lemma {:induction false} InJoin(ss: seq<string>, sep: char, c: char)
    ensures c != sep ==> (c in Join(ss, sep) <==> !Free(ss, c))
  {
    if |ss| > 1 {
      InJoin(ss[1..], sep, c);
      assert ss == [ss[0]] + ss[1..];
      assert Free(ss, c) <==> c !in ss[0] && Free(ss[1..], c);
    }
  }

  lemma JoinEmpty(ss: seq<string>, sep: char)
    ensures Join(ss, sep) == "" <==> ss == [] || ss == [""]
  {
  }

  // ----- what a command keeps -----

  /** The two searches of getTableIndexes never fail, and cut out the list of names. */
  lemma CommandParses(table: string, n: nat, columns: seq<string>)
    ensures var cmd := Command(table, n, columns);
            var l, r := LastIndex(cmd, '('), LastIndex(cmd, ')');
            l.Some? && r.Some? && l.value < r.value
            && TrimAll(Split(cmd[l.value + 1..r.value], ',')) == Listed(columns)
  {
    ListFound(CommandHead(table, n), Join(columns, ','));
  }

  lemma ListFound(head: string, text: string)
    ensures var cmd, i := head + "(" + text + ")", LastIndex(text, '(');
            var l, r := LastIndex(cmd, '('), LastIndex(cmd, ')');
            l.Some? && r.Some? && l.value < r.value
            && cmd[l.value + 1..r.value] == if i.Some? then text[i.value + 1..] else text
  {
    var i := LastIndex(text, '(');
    if i.Some? {
      var front, rest := text[..i.value], text[i.value + 1..];
      assert text == front + "(" + rest;
      Regroup(head, front, rest);
      LastPair(head + "(" + front, rest);
    } else {
      LastPair(head, text);
    }
  }

  lemma Regroup(head: string, front: string, rest: string)
    ensures head + "(" + (front + "(" + rest) + ")" == (head + "(" + front) + "(" + rest + ")"
  {
  }

  lemma LastPair(head: string, rest: string)
    requires '(' !in rest
    ensures var cmd := head + "(" + rest + ")";
            LastIndex(cmd, '(') == Some(|head|) && LastIndex(cmd, ')') == Some(|head| + |rest| + 1)
            && cmd[|head| + 1..|head| + |rest| + 1] == rest
  {
    var cmd := head + "(" + rest + ")";
    hide LastIndex;
    assert cmd[|head| + 1..] == rest + ")";
    LastIs(cmd, '(', |head|);
    LastIs(cmd, ')', |head| + |rest| + 1);
  }

  lemma LastIs(s: string, c: char, i: nat)
    requires i < |s| && s[i] == c && c !in s[i + 1..]
    ensures LastIndex(s, c) == Some(i)
  {
    var j := LastIndex(s, c);
    assert s[i] in s;
    NoneAfter(s, c, i);
    NoneAfter(s, c, j.value);
  }

  lemma NoneAfter(s: string, c: char, i: nat)
    requires i < |s| && c !in s[i + 1..]
    ensures forall k :: i < k < |s| ==> s[k] != c
  {
    forall k | i < k < |s| ensures s[k] != c {
      assert s[i + 1..][k - i - 1] == s[k];
    }
  }

  lemma TrimKeepsFree(ss: seq<string>, c: char)
    requires Free(ss, c)
    ensures Free(TrimAll(ss), c)
    ensures forall i :: 0 <= i < |ss| ==> Trim(TrimAll(ss)[i]) == TrimAll(ss)[i]
  {
    forall i | 0 <= i < |ss| ensures c !in TrimAll(ss)[i] && Trim(TrimAll(ss)[i]) == TrimAll(ss)[i] {
      assert TrimAll(ss)[i] == Trim(ss[i]);
    }
  }

  /** Names that went through a command have no comma or opening parenthesis and no space around them. */
  lemma ListedIsPlain(columns: seq<string>)
    ensures Free(Listed(columns), ',') && Free(Listed(columns), '(')
    ensures forall i :: 0 <= i < |Listed(columns)| ==> Trim(Listed(columns)[i]) == Listed(columns)[i]
  {
    hide Split, Join, TrimAll, Trim, LastIndex;
    var text := Join(columns, ',');
    var i := LastIndex(text, '(');
    var rest := if i.Some? then text[i.value + 1..] else text;
    PiecesAreFree(rest, ',', ',');
    PiecesAreFree(rest, ',', '(');
    TrimKeepsFree(Split(rest, ','), ',');
    TrimKeepsFree(Split(rest, ','), '(');
  }

  /** A command keeps a non-empty list exactly if its names are like that. */
  lemma ListedExact(columns: seq<string>)
    requires columns != []
    ensures Listed(columns) == columns <==>
              Free(columns, ',') && Free(columns, '(')
              && forall i :: 0 <= i < |columns| ==> Trim(columns[i]) == columns[i]
  {
    if Listed(columns) == columns {
      ListedIsPlain(columns);
    } else if Free(columns, ',') && Free(columns, '(') {
      InJoin(columns, ',', '(');
      SplitJoin(columns, ',');
    }
  }
}
