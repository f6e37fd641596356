/**
 The summary-key handling in `df` (ecl2df/wellconnstatus.py): the filter that
 keeps the keys shaped `CPI:<well>:<i>,<j>,<k>` and the split of such a key into
 its well name and cell coordinates, which stay strings.

 The pattern is `^CPI:[A-Z0-9_-]{1,8}:[0-9]+,[0-9]+,[0-9]+$` under Python's
 `re.match`, where `$` matches at the very end and also just before a single
 newline ending the string; such a newline stays in the `k` field.
 */
module ConnectionKey {
  import opened PyStr

  /** Identity of one connection as carried on every output row. */
  datatype ConnKey = ConnKey(well: string, i: string, j: string, k: string)

  /** `[A-Z0-9_-]` */
  predicate IsWellChar(c: char)
  {
    ('A' <= c <= 'Z') || ('0' <= c <= '9') || c == '_' || c == '-'
  }

  /** `[A-Z0-9_-]{1,8}` */
  predicate IsWellName(s: string)
  {
    1 <= |s| <= 8 && forall m :: 0 <= m < |s| ==> IsWellChar(s[m])
  }

  /** `[0-9]+` */
  predicate IsDigits(s: string)
  {
    |s| >= 1 && forall m :: 0 <= m < |s| ==> '0' <= s[m] <= '9'
  }

  /** `[0-9]+$`: digits, optionally followed by the one newline `$` lets through. */
  predicate IsLastDigits(s: string)
  {
    IsDigits(s) || (|s| >= 2 && s[|s| - 1] == '\n' && IsDigits(s[..|s| - 1]))
  }

  /** The fields of a key the pattern accepts. */
  predicate WellFormed(key: ConnKey)
  {
    IsWellName(key.well) && IsDigits(key.i) && IsDigits(key.j) && IsLastDigits(key.k)
  }

  /** The summary key naming a connection's CPI vector. */
  function Render(key: ConnKey): string
  {
    "CPI:" + key.well + ":" + key.i + "," + key.j + "," + key.k
  }

  /** The language of the pattern: every rendering of well-formed fields. */
  ghost predicate InPattern(col: string)
  {
    exists key: ConnKey :: WellFormed(key) && Render(key) == col
  }

  /** The key filter (line 33), decided on the pieces the key splits into:
      three ':'-pieces `CPI`, a well name and a cell, the cell being three
      ','-pieces of digits. */
  predicate IsCpiKey(col: string)
  {
    var parts := Split(col, ':');
    && |parts| == 3
    && parts[0] == "CPI"
    && IsWellName(parts[1])
    && var cell := Split(parts[2], ',');
    && |cell| == 3
    && IsDigits(cell[0]) && IsDigits(cell[1]) && IsLastDigits(cell[2])
  }

  /** Lines 38-40: the well is the second ':'-piece of the key; i, j and k
      are the three ','-pieces of the third. */
  function KeyFields(col: string): ConnKey
    requires IsCpiKey(col)
  {
    var colsplit := Split(col, ':');
    var cell := Split(colsplit[2], ',');
    ConnKey(colsplit[1], cell[0], cell[1], cell[2])
  }

  /** The fields split off an accepted key are well formed and render back
      to that key. */
  lemma KeyFieldsRender(col: string)
    requires IsCpiKey(col)
    ensures WellFormed(KeyFields(col))
    ensures Render(KeyFields(col)) == col
  {
    var colsplit := Split(col, ':');
    var cell := Split(colsplit[2], ',');
    SplitThree(col, ':');
    SplitThree(colsplit[2], ',');
  }

  /** A string that splits into three pieces is those pieces joined. */
  lemma SplitThree(s: string, sep: char)
    requires |Split(s, sep)| == 3
    ensures var p := Split(s, sep); s == p[0] + [sep] + p[1] + [sep] + p[2]
  {
    var p := Split(s, sep);
    JoinSplit(s, sep);
    Join3(p[0], p[1], p[2], sep);
    assert p == [p[0], p[1], p[2]];
  }

  /** No field of a well-formed key holds either separator. */
  lemma NoSeparator(s: string, sep: char)
    requires IsWellName(s) || IsDigits(s) || IsLastDigits(s)
    requires sep == ':' || sep == ','
    ensures sep !in s
  {
  }

  /** Joining three pieces. */
  lemma Join3(a: string, b: string, c: string, sep: char)
    ensures Join([a, b, c], sep) == a + [sep] + b + [sep] + c
  {
    assert [a, b, c][1..] == [b, c];
    assert [b, c][1..] == [c];
    assert Join([b, c], sep) == b + [sep] + c;
  }

  /** Every rendering of well-formed fields passes the filter, and the split
      recovers exactly those fields. */
  lemma {:induction false} RenderAccepted(key: ConnKey)
    requires WellFormed(key)
    ensures IsCpiKey(Render(key))
    ensures KeyFields(Render(key)) == key
  {
    NoSeparator(key.well, ':');
    NoSeparator(key.i, ':'); NoSeparator(key.j, ':'); NoSeparator(key.k, ':');
    NoSeparator(key.i, ','); NoSeparator(key.j, ','); NoSeparator(key.k, ',');
    var cell := key.i + "," + key.j + "," + key.k;
    Join3(key.i, key.j, key.k, ',');
    SplitJoin([key.i, key.j, key.k], ',');
    assert ':' !in cell;
    Join3("CPI", key.well, cell, ':');
    assert Render(key) == "CPI" + [':'] + key.well + [':'] + cell;
    SplitJoin(["CPI", key.well, cell], ':');
  }

  /** The filter accepts exactly the strings of the pattern's language. */
  lemma FilterIsPattern(col: string)
    ensures IsCpiKey(col) <==> InPattern(col)
  {
    if IsCpiKey(col) {
      KeyFieldsRender(col);
      var key := KeyFields(col);
      assert WellFormed(key) && Render(key) == col;
    }
    if InPattern(col) {
      var key :| WellFormed(key) && Render(key) == col;
      RenderAccepted(key);
    }
  }

  /** `$` lets one trailing newline through, and it ends up in `k`. */
  lemma TrailingNewlineAccepted()
    ensures IsCpiKey("CPI:OP_1:3,4,5\n")
    ensures KeyFields("CPI:OP_1:3,4,5\n") == ConnKey("OP_1", "3", "4", "5\n")
  {
    var key := ConnKey("OP_1", "3", "4", "5\n");
    assert "5\n"[..1] == "5";
    assert WellFormed(key);
    RenderAccepted(key);
    assert Render(key) == "CPI:OP_1:3,4,5\n";
  }
}
