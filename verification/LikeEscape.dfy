// Escaping for LIKE (tortoise/filters.py, `escape_like`, `contains`, `starts_with`, `ends_with`;
// tortoise/backends/mysql/executor.py, the MySQL variants and `StrWrapper`).
module LikeEscape {
  import opened Common

  // ---- The code --------------------------------------------------------------------------------

  /** Python's `s.replace(c, to)` for a single character `c`. */
  function Replace(s: string, c: char, to: string): string {
    if s == "" then "" else (if s[0] == c then to else [s[0]]) + Replace(s[1..], c, to)
  }

  function Escape(val: string): string {
    Replace(Replace(Replace(val, '\\', "\\\\"), '%', "\\%"), '_', "\\_")
  }

  function ContainsPattern(val: string): string {
    "%" + Escape(val) + "%"
  }

  function StartsWithPattern(val: string): string {
    Escape(val) + "%"
  }

  function EndsWithPattern(val: string): string {
    "%" + Escape(val)
  }

  function MysqlEscape(val: string): string {
    Replace(Replace(Replace(val, '\\', "\\\\\\\\"), '%', "\\%"), '_', "\\_")
  }

  /** `StrWrapper`: a string literal in which only the quote is doubled. */
  function Literal(value: string): string {
    "'" + Replace(value, '\'', "''") + "'"
  }

  // ---- SQL -------------------------------------------------------------------------------------

  /** `text LIKE pattern ESCAPE '\'`. `same` says which characters the collation identifies. */
  predicate Like(same: (char, char) -> bool, pattern: string, text: string)
    decreases |pattern| + |text|
  {
    if pattern == "" then text == ""
    else if pattern[0] == '\\' then
      |pattern| >= 2 && text != "" && same(pattern[1], text[0]) && Like(same, pattern[2..], text[1..])
    else if pattern[0] == '%' then
      Like(same, pattern[1..], text) || (text != "" && Like(same, pattern, text[1..]))
    else if pattern[0] == '_' then text != "" && Like(same, pattern[1..], text[1..])
    else text != "" && same(pattern[0], text[0]) && Like(same, pattern[1..], text[1..])
  }

  /** What a backslash and the character after it stand for in a MySQL string literal. */
  function MysqlUnescape(c: char): string {
    if c == '%' || c == '_' then ['\\', c]
    else if c == '0' then [0 as char]
    else if c == 'b' then [8 as char]
    else if c == 'n' then "\n"
    else if c == 'r' then "\r"
    else if c == 't' then "\t"
    else if c == 'Z' then [26 as char]
    else [c]
  }

  /** The rest of a MySQL string literal after its opening quote: its value, and the SQL after it. */
  function ReadRest(sql: string): Option<(string, string)> {
    if sql == "" then None
    else if sql[0] == '\'' then
      if |sql| >= 2 && sql[1] == '\'' then Prepend("'", ReadRest(sql[2..])) else Some(("", sql[1..]))
    else if sql[0] == '\\' then
      if |sql| < 2 then None else Prepend(MysqlUnescape(sql[1]), ReadRest(sql[2..]))
    else Prepend([sql[0]], ReadRest(sql[1..]))
  }

  function Prepend(s: string, r: Option<(string, string)>): Option<(string, string)> {
    match r
    case None => None
    case Some((value, rest)) => Some((s + value, rest))
  }

  function ReadLiteral(sql: string): Option<(string, string)> {
    if sql != "" && sql[0] == '\'' then ReadRest(sql[1..]) else None
  }

  // ---- Three replacements are one per-character map --------------------------------------------

  function PerChar(s: string, f: char -> string): string {
    if s == "" then "" else f(s[0]) + PerChar(s[1..], f)
  }

  function EscapeChar(c: char): string {
    if c == '\\' || c == '%' || c == '_' then ['\\', c] else [c]
  }

  lemma {:induction false} ReplaceAppend(a: string, b: string, c: char, to: string)
    ensures Replace(a + b, c, to) == Replace(a, c, to) + Replace(b, c, to)
  {
    if a == "" {
      assert a + b == b;
    } else {
      assert (a + b)[1..] == a[1..] + b;
      ReplaceAppend(a[1..], b, c, to);
    }
  }

  lemma ReplaceShort(s: string, c: char, to: string)
    requires 1 <= |s| <= 4
    ensures forall i :: 0 <= i < |s| ==> s[i] != c ==> Replace(s[i..], c, to) == [s[i]] + Replace(s[i + 1..], c, to)
    ensures |s| == 1 ==> Replace(s, c, to) == if s[0] == c then to else s
    ensures |s| == 2 && s[0] != c ==> Replace(s, c, to) == [s[0]] + (if s[1] == c then to else [s[1]])
    ensures c !in s ==> Replace(s, c, to) == s
  {
    forall i | 0 <= i < |s| ensures s[i..][1..] == s[i + 1..] {}
    assert s[0..] == s && s[|s|..] == "";
    if c !in s {
      UntouchedReplace(s, c, to);
    }
  }

  lemma {:induction false} UntouchedReplace(s: string, c: char, to: string)
    requires c !in s
    ensures Replace(s, c, to) == s
  {
    if s != "" {
      UntouchedReplace(s[1..], c, to);
    }
  }

  /** The three chained replacements act on each character separately: later ones never touch what
      earlier ones inserted. */
  lemma {:induction false} EscapeIsPerChar(val: string)
    ensures Escape(val) == PerChar(val, EscapeChar)
  {
    if val != "" {
      var c, rest := val[0], val[1..];
      assert val == [c] + rest;
      ReplaceAppend([c], rest, '\\', "\\\\");
      var a, a' := Replace([c], '\\', "\\\\"), Replace(rest, '\\', "\\\\");
      ReplaceAppend(a, a', '%', "\\%");
      var b, b' := Replace(a, '%', "\\%"), Replace(a', '%', "\\%");
      ReplaceAppend(b, b', '_', "\\_");
      EscapeIsPerChar(rest);
      ReplaceShort([c], '\\', "\\\\");
      ReplaceShort(a, '%', "\\%");
      ReplaceShort(b, '_', "\\_");
      assert Replace(b, '_', "\\_") == EscapeChar(c);
    }
  }

  // ---- LIKE on escaped text --------------------------------------------------------------------

  /** Equal as far as the collation can tell. */
  ghost predicate Alike(same: (char, char) -> bool, a: string, b: string) {
    |a| == |b| && forall i :: 0 <= i < |a| ==> same(a[i], b[i])
  }

  lemma AlikeCons(same: (char, char) -> bool, a: string, b: string)
    requires |a| == |b| > 0
    ensures Alike(same, a, b) <==> same(a[0], b[0]) && Alike(same, a[1..], b[1..])
  {
    assert forall i :: 0 < i < |a| ==> a[i] == a[1..][i - 1] && b[i] == b[1..][i - 1];
  }

  /** The text starts with the value, one character at a time. */
  lemma AlikePrefix(same: (char, char) -> bool, val: string, text: string)
    requires val != "" && |val| <= |text|
    ensures Alike(same, val, text[..|val|])
            <==> same(val[0], text[0]) && Alike(same, val[1..], text[1..][..|val| - 1])
    ensures text[1..][|val| - 1..] == text[|val|..]
  {
    AlikeCons(same, val, text[..|val|]);
    assert text[..|val|][1..] == text[1..][..|val| - 1];
  }

  /** One escaped character matches that character. */
  lemma OneCharacter(same: (char, char) -> bool, c: char, pattern: string, text: string)
    ensures Like(same, EscapeChar(c) + pattern, text)
            <==> text != "" && same(c, text[0]) && Like(same, pattern, text[1..])
  {
    assert (EscapeChar(c) + pattern)[|EscapeChar(c)|..] == pattern;
  }

  /** An escaped value matches itself and nothing else, whatever follows it in the pattern. */
  lemma {:induction false} EscapedIsLiteral(same: (char, char) -> bool, val: string, pattern: string, text: string)
    ensures Like(same, Escape(val) + pattern, text) <==>
            |val| <= |text| && Alike(same, val, text[..|val|]) && Like(same, pattern, text[|val|..])
  {
    EscapeIsPerChar(val);
    if val == "" {
      assert Escape(val) + pattern == pattern && text[0..] == text;
    } else {
      var rest := val[1..];
      EscapeIsPerChar(rest);
      assert Escape(val) + pattern == EscapeChar(val[0]) + (Escape(rest) + pattern);
      OneCharacter(same, val[0], Escape(rest) + pattern, text);
      if text != "" {
        EscapedIsLiteral(same, rest, pattern, text[1..]);
        if |val| <= |text| {
          AlikePrefix(same, val, text);
        }
      }
    }
  }

  /** `%` skips any number of characters. */
  lemma {:induction false} PercentSkips(same: (char, char) -> bool, pattern: string, text: string)
    ensures Like(same, "%" + pattern, text) <==> exists i :: 0 <= i <= |text| && Like(same, pattern, text[i..])
    decreases |text|
  {
    var p := "%" + pattern;
    assert p[1..] == pattern && text[0..] == text;
    if text != "" {
      PercentSkips(same, pattern, text[1..]);
      forall i | 1 <= i <= |text| ensures text[1..][i - 1..] == text[i..] {}
      if Like(same, p, text[1..]) {
        var i :| 0 <= i <= |text[1..]| && Like(same, pattern, text[1..][i..]);
        assert text[1..][i..] == text[i + 1..];
      }
      if i :| 0 <= i <= |text| && Like(same, pattern, text[i..]) {
        if i > 0 {
          assert Like(same, pattern, text[1..][i - 1..]);
        }
      }
    } else if i :| 0 <= i <= |text| && Like(same, pattern, text[i..]) {
      assert text[i..] == text;
    }
  }

  lemma {:induction false} PercentAlone(same: (char, char) -> bool, text: string)
    ensures Like(same, "%", text)
  {
    assert "%"[1..] == "";
    if text != "" {
      PercentAlone(same, text[1..]);
    }
  }

  lemma EmptyPattern(same: (char, char) -> bool, text: string)
    ensures Like(same, "", text) <==> text == ""
  {}

  /** The value stands in the text at position `i`. */
  ghost predicate OccursAt(same: (char, char) -> bool, val: string, text: string, i: int) {
    0 <= i <= |text| - |val| && Alike(same, val, text[i..i + |val|])
  }

  /** `contains` holds exactly when the value occurs literally in the text. */
  lemma ContainsIsSubstring(same: (char, char) -> bool, val: string, text: string)
    ensures Like(same, ContainsPattern(val), text) <==> exists i :: OccursAt(same, val, text, i)
  {
    var p := Escape(val) + "%";
    assert ContainsPattern(val) == "%" + p;
    PercentSkips(same, p, text);
    if Like(same, ContainsPattern(val), text) {
      var i :| 0 <= i <= |text| && Like(same, p, text[i..]);
      OccursFrom(same, val, text, i);
    }
    if i :| OccursAt(same, val, text, i) {
      OccursFrom(same, val, text, i);
    }
  }

  lemma OccursFrom(same: (char, char) -> bool, val: string, text: string, i: nat)
    requires i <= |text|
    ensures Like(same, Escape(val) + "%", text[i..]) <==> OccursAt(same, val, text, i)
  {
    EscapedIsLiteral(same, val, "%", text[i..]);
    if |val| <= |text[i..]| {
      PercentAlone(same, text[i..][|val|..]);
      assert text[i..][..|val|] == text[i..i + |val|];
    }
  }

  /** `starts_with` holds exactly when the value is literally a prefix. */
  lemma StartsWithIsPrefix(same: (char, char) -> bool, val: string, text: string)
    ensures Like(same, StartsWithPattern(val), text) <==> |val| <= |text| && Alike(same, val, text[..|val|])
  {
    EscapedIsLiteral(same, val, "%", text);
    if |val| <= |text| {
      PercentAlone(same, text[|val|..]);
    }
  }

  /** `ends_with` holds exactly when the value is literally a suffix. */
  lemma EndsWithIsSuffix(same: (char, char) -> bool, val: string, text: string)
    ensures Like(same, EndsWithPattern(val), text) <==> |val| <= |text| && Alike(same, val, text[|text| - |val|..])
  {
    PercentSkips(same, Escape(val), text);
    forall i | 0 <= i <= |text|
      ensures Like(same, Escape(val), text[i..]) <==> i == |text| - |val| && Alike(same, val, text[i..])
    {
      WholeText(same, val, text[i..]);
    }
    if |val| <= |text| {
      assert Like(same, Escape(val), text[|text| - |val|..]) <==> Alike(same, val, text[|text| - |val|..]);
    }
  }

  /** Without a percent sign around it, an escaped value matches the whole text only. */
  lemma WholeText(same: (char, char) -> bool, val: string, text: string)
    ensures Like(same, Escape(val), text) <==> |val| == |text| && Alike(same, val, text)
  {
    EscapedIsLiteral(same, val, "", text);
    assert Escape(val) + "" == Escape(val);
    if |val| <= |text| {
      EmptyPattern(same, text[|val|..]);
      assert |val| == |text| ==> text[..|val|] == text;
    }
  }

  // ---- MySQL -----------------------------------------------------------------------------------

  function MysqlChar(c: char): string {
    if c == '\\' then "\\\\\\\\" else EscapeChar(c)
  }

  /** One character of the value as it stands in the SQL text. */
  function MysqlSqlChar(c: char): string {
    if c == '\'' then "''" else MysqlChar(c)
  }

  lemma {:induction false} MysqlEscapeIsPerChar(val: string)
    ensures MysqlEscape(val) == PerChar(val, MysqlChar)
  {
    if val != "" {
      var c, rest := val[0], val[1..];
      assert val == [c] + rest;
      ReplaceAppend([c], rest, '\\', "\\\\\\\\");
      var a, a' := Replace([c], '\\', "\\\\\\\\"), Replace(rest, '\\', "\\\\\\\\");
      ReplaceAppend(a, a', '%', "\\%");
      var b, b' := Replace(a, '%', "\\%"), Replace(a', '%', "\\%");
      ReplaceAppend(b, b', '_', "\\_");
      MysqlEscapeIsPerChar(rest);
      ReplaceShort([c], '\\', "\\\\\\\\");
      ReplaceShort(a, '%', "\\%");
      ReplaceShort(b, '_', "\\_");
      assert Replace(b, '_', "\\_") == MysqlChar(c);
    }
  }

  lemma {:induction false} QuotedIsPerChar(val: string)
    ensures Replace(MysqlEscape(val), '\'', "''") == PerChar(val, MysqlSqlChar)
  {
    MysqlEscapeIsPerChar(val);
    if val != "" {
      MysqlEscapeIsPerChar(val[1..]);
      ReplaceAppend(MysqlChar(val[0]), PerChar(val[1..], MysqlChar), '\'', "''");
      QuotedIsPerChar(val[1..]);
      ReplaceShort(MysqlChar(val[0]), '\'', "''");
    }
  }

  lemma PrependTwice(a: string, b: string, r: Option<(string, string)>)
    ensures Prepend(a, Prepend(b, r)) == Prepend(a + b, r)
  {
    if r.Some? {
      assert a + (b + r.value.0) == (a + b) + r.value.0;
    }
  }

  lemma ReadEscape(c: char, sql: string)
    ensures ReadRest(['\\', c] + sql) == Prepend(MysqlUnescape(c), ReadRest(sql))
  {
    var s := ['\\', c] + sql;
    assert s[0] == '\\' && s[1] == c && s[2..] == sql;
  }

  lemma ReadChar(c: char, sql: string)
    ensures ReadRest(MysqlSqlChar(c) + sql) == Prepend(EscapeChar(c), ReadRest(sql))
  {
    var s := MysqlSqlChar(c) + sql;
    assert s[|MysqlSqlChar(c)|..] == sql;
    if c == '\\' {
      assert s == ['\\', '\\'] + (['\\', '\\'] + sql);
      ReadEscape('\\', ['\\', '\\'] + sql);
      ReadEscape('\\', sql);
      PrependTwice("\\", "\\", ReadRest(sql));
      assert "\\" + "\\" == EscapeChar(c) && MysqlUnescape('\\') == "\\";
    } else if c == '%' || c == '_' {
      ReadEscape(c, sql);
    } else if c == '\'' {
      assert s[0] == '\'' && s[1] == '\'';
    } else {
      assert s[0] == c && s[1..] == sql;
    }
  }

  lemma {:induction false} ReadChars(val: string, sql: string)
    ensures ReadRest(PerChar(val, MysqlSqlChar) + sql) == Prepend(PerChar(val, EscapeChar), ReadRest(sql))
  {
    if val == "" {
      assert PerChar(val, MysqlSqlChar) + sql == sql;
      assert ReadRest(sql).Some? ==> "" + ReadRest(sql).value.0 == ReadRest(sql).value.0;
    } else {
      var tail := PerChar(val[1..], MysqlSqlChar) + sql;
      assert PerChar(val, MysqlSqlChar) + sql == MysqlSqlChar(val[0]) + tail;
      ReadChar(val[0], tail);
      ReadChars(val[1..], sql);
      PrependTwice(EscapeChar(val[0]), PerChar(val[1..], EscapeChar), ReadRest(sql));
    }
  }

  /** Percent signs around a value, as the MySQL operators put them. */
  function Around(before: bool, value: string, after: bool): string {
    (if before then "%" else "") + value + (if after then "%" else "")
  }

  lemma QuotedAround(before: bool, val: string, after: bool)
    ensures Replace(Around(before, MysqlEscape(val), after), '\'', "''") ==
            Around(before, PerChar(val, MysqlSqlChar), after)
  {
    var b, a := if before then "%" else "", if after then "%" else "";
    ReplaceAppend(b + MysqlEscape(val), a, '\'', "''");
    ReplaceAppend(b, MysqlEscape(val), '\'', "''");
    QuotedIsPerChar(val);
    UntouchedReplace(b, '\'', "''");
    UntouchedReplace(a, '\'', "''");
  }

  /** A percent sign or nothing, in the middle of a literal. */
  lemma ReadPercent(present: bool, sql: string)
    ensures ReadRest((if present then "%" else "") + sql) == Prepend(if present then "%" else "", ReadRest(sql))
  {
    if present {
      assert ("%" + sql)[0] == '%' && ("%" + sql)[1..] == sql;
    } else {
      assert "" + sql == sql;
      assert ReadRest(sql).Some? ==> "" + ReadRest(sql).value.0 == ReadRest(sql).value.0;
    }
  }

  lemma ReadClose(sql: string)
    requires sql == "" || sql[0] != '\''
    ensures ReadRest("'" + sql) == Some(("", sql))
  {
    assert ("'" + sql)[1..] == sql;
  }

  lemma ReadEnd(val: string, a: string, sql: string)
    requires ReadRest(a + sql) == Prepend(a, ReadRest(sql))
    ensures ReadRest(PerChar(val, MysqlSqlChar) + (a + sql)) == Prepend(Escape(val) + a, ReadRest(sql))
  {
    ReadChars(val, a + sql);
    EscapeIsPerChar(val);
    PrependTwice(Escape(val), a, ReadRest(sql));
  }

  lemma ReadAll(before: bool, val: string, after: bool, sql: string)
    ensures ReadRest(Around(before, PerChar(val, MysqlSqlChar), after) + sql) ==
            Prepend(Around(before, Escape(val), after), ReadRest(sql))
  {
    var b, a := if before then "%" else "", if after then "%" else "";
    var rest := PerChar(val, MysqlSqlChar) + (a + sql);
    ReadPercent(after, sql);
    ReadEnd(val, a, sql);
    ReadPercent(before, rest);
    PrependTwice(b, Escape(val) + a, ReadRest(sql));
    Reassociate(b, Escape(val), a, "");
    Reassociate(b, PerChar(val, MysqlSqlChar), a, sql);
  }

  lemma Reassociate(b: string, x: string, a: string, sql: string)
    ensures b + (x + (a + sql)) == (b + x + a) + sql
    ensures b + (x + a) == b + x + a
  {}

  /** The literal that the MySQL operators emit ends exactly where it should, whatever the value, and
      MySQL reads from it the very pattern that the standard operators use. */
  lemma MysqlDenotesSamePattern(before: bool, val: string, after: bool, sql: string)
    requires sql == "" || sql[0] != '\''
    ensures ReadLiteral(Literal(Around(before, MysqlEscape(val), after)) + sql) ==
            Some((Around(before, Escape(val), after), sql))
  {
    QuotedAround(before, val, after);
    var body := Around(before, PerChar(val, MysqlSqlChar), after);
    assert Literal(Around(before, MysqlEscape(val), after)) + sql == "'" + (body + ("'" + sql));
    assert ("'" + (body + ("'" + sql)))[1..] == body + ("'" + sql);
    ReadAll(before, val, after, "'" + sql);
    ReadClose(sql);
    assert Around(before, Escape(val), after) + "" == Around(before, Escape(val), after);
  }

  /** The patterns of the standard operators, in the same form. */
  lemma StandardPatterns(val: string)
    ensures Around(true, Escape(val), true) == ContainsPattern(val)
    ensures Around(false, Escape(val), true) == StartsWithPattern(val)
    ensures Around(true, Escape(val), false) == EndsWithPattern(val)
  {
    assert "" + Escape(val) + "%" == StartsWithPattern(val);
    assert "%" + Escape(val) + "" == EndsWithPattern(val);
  }
}
