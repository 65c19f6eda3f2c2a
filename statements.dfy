/** The dialect-aware statement builder: placeholder substitution in a
    dialect template (constructQuery) and the fragment lists and statements
    computed once when the table is opened (initializeDatabaseExecutionInfo). */
module Statements {
  import opened Text
  import opened Schema

  datatype TokenKind =
    | TableNameToken
    | ColumnTypesToken
    | ColumnsToken
    | ValuesToken
    | ColumnValuesToken
    | ConditionToken

  /** The placeholder texts the dialect templates use, one per kind. */
  datatype Tokens = Tokens(
    tableName: string,
    columnTypes: string,
    columns: string,
    values: string,
    columnValues: string,
    condition: string)
  {
    function TokenText(k: TokenKind): string {
      match k
      case TableNameToken => tableName
      case ColumnTypesToken => columnTypes
      case ColumnsToken => columns
      case ValuesToken => values
      case ColumnValuesToken => columnValues
      case ConditionToken => condition
    }

    predicate Valid() {
      tableName != [] && columnTypes != [] && columns != [] &&
      values != [] && columnValues != [] && condition != []
    }
  }

  /** Keys of one dialect's element mapping. */
  datatype Element =
    | CreateTable | InsertData | TableExist | GenericSelectTable
    | Comma | QuestionMark
    | IntegerType | LongType | FloatType | DoubleType | StringType | BooleanType

  type Dialect = map<Element, string>

  /** Map.get of a fragment appended to a StringBuilder: a missing entry is
      null, which StringBuilder.append writes as "null". */
  function AppendText(d: Dialect, e: Element): string {
    if e in d then d[e] else "null"
  }

  /** Map.get of a template; a missing one is null. */
  function TemplateOf(d: Dialect, e: Element): Option<string> {
    if e in d then Some(d[e]) else None
  }

  /** The dialect table is keyed by the lower-cased database product name. */
  function SelectDialect(registry: map<string, Dialect>, product: string): (d: Option<Dialect>)
    ensures d.Some? <==> Lower(product) in registry
  {
    if Lower(product) in registry then Some(registry[Lower(product)]) else None
  }

  /** constructQuery dereferences a null template or a null argument of a
      placeholder the query holds. */
  datatype QueryError = NullTemplate | NullArgument(kind: TokenKind)

  /** One `if (query.contains(token)) query = query.replace(token, arg)` step. */
  function Substitute(q: string, tk: Tokens, k: TokenKind, arg: Option<string>): (r: Result<string, QueryError>)
    requires tk.Valid()
    ensures !Contains(q, tk.TokenText(k)) ==> r == Ok(q)
    ensures Contains(q, tk.TokenText(k)) ==> (r.Err? <==> arg.None?)
    ensures r.Err? ==> r.error == NullArgument(k)
  {
    var tok := tk.TokenText(k);
    if !Contains(q, tok) then Ok(q)
    else if arg.None? then Err(NullArgument(k))
    else Ok(ReplaceAll(q, tok, arg.value))
  }

  /** Deletes every literal `where`, then every literal `WHERE`, wherever they
      stand in the query. */
  function StripWhere(s: string): string {
    ReplaceAll(ReplaceAll(s, "where", ""), "WHERE", "")
  }

  /** The keyword in either spelling, with no other `w` or `W` around it, is
      deleted and the text on both sides is kept. */
  lemma {:induction false} StripWhereDeletesKeyword(a: string, b: string)
    requires 'w' !in a && 'W' !in a && 'w' !in b && 'W' !in b
    ensures StripWhere(a + "WHERE" + b) == a + b
    ensures StripWhere(a + "where" + b) == a + b
  {
    DeleteBoth(a, b, "where", "WHERE");
  }

  /** Two deletions in a row, for targets whose first characters differ and
      occur nowhere else: whichever one the text holds once goes, and nothing
      else does. */
  lemma {:induction false} DeleteBoth(a: string, b: string, lo: string, up: string)
    requires lo != [] && up != [] && lo[0] != up[0]
    requires lo[0] !in a && lo[0] !in b && lo[0] !in up && up[0] !in a && up[0] !in b && up[0] !in lo
    ensures ReplaceAll(ReplaceAll(a + up + b, lo, ""), up, "") == a + b
    ensures ReplaceAll(ReplaceAll(a + lo + b, lo, ""), up, "") == a + b
  {
    DeleteOne(a, b, up, lo);
    DeleteOne(a, b, lo, up);
  }

  /** Deleting `x` from text holding `pat` once and no `x`, then deleting `pat`,
      leaves the text around `pat`. */
  lemma {:induction false} DeleteOne(a: string, b: string, pat: string, x: string)
    requires pat != [] && x != []
    requires x[0] !in a && x[0] !in b && x[0] !in pat && pat[0] !in a && pat[0] !in b
    ensures ReplaceAll(ReplaceAll(a + pat + b, x, ""), pat, "") == a + b
    ensures ReplaceAll(ReplaceAll(a + pat + b, pat, ""), x, "") == a + b
  {
    var s := a + pat + b;
    assert x[0] !in s;
    ReplaceFreshHead(s, x, "");
    ReplaceSingle(a, pat, b, "");
    assert a + "" + b == a + b;
    assert x[0] !in a + b;
    ReplaceFreshHead(a + b, x, "");
  }

  /** One occurrence of each target, apart: both go. */
  lemma {:induction false} DeleteApart(a: string, m: string, b: string, lo: string, up: string)
    requires lo != [] && up != []
    requires lo[0] !in a && lo[0] !in m && lo[0] !in up && lo[0] !in b
    requires up[0] !in a && up[0] !in m && up[0] !in b
    ensures ReplaceAll(ReplaceAll(a + lo + (m + up + b), lo, ""), up, "") == (a + m) + b
  {
    var tail := m + up + b;
    DeleteFirst(a, lo, tail);
    Regroup(a, m, up, b);
    DeleteFirst(a + m, up, b);
  }

  lemma {:induction false} Regroup(a: string, m: string, up: string, b: string)
    ensures a + (m + up + b) == (a + m) + up + b
  {
  }

  lemma {:induction false} DeleteFirst(a: string, pat: string, b: string)
    requires pat != [] && pat[0] !in a && pat[0] !in b
    ensures ReplaceAll(a + pat + b, pat, "") == a + b
  {
    ReplaceSingle(a, pat, b, "");
    assert a + "" + b == a + b;
  }

  /** The deletion is not confined to the keyword: a table named `nowhere`
      loses its last five letters. */
  lemma {:induction false} StripWhereReachesNames()
    ensures StripWhere("DELETE FROM nowhere WHERE ") == "DELETE FROM no  "
  {
    var a, m, b := "DELETE FROM no", " ", " ";
    NowhereParts(a, m, b);
    DeleteApart(a, m, b, "where", "WHERE");
  }

  /** Only the two spellings are deleted: a mixed-case `Where` stays. */
  lemma {:induction false} StripWhereKeepsMixedCase()
    ensures StripWhere("x Where y") == "x Where y"
  {
    var s := "x Where y";
    forall i: nat | i <= |s| ensures !OccursAt(s, "where", i) && !OccursAt(s, "WHERE", i) {
      if i + 5 <= |s| {
        assert s[i..i + 5][0] == s[i] && s[i..i + 5][1] == s[i + 1];
      }
    }
    ReplaceAllAbsent(s, "where", "");
    ReplaceAllAbsent(s, "WHERE", "");
  }

  /** Each spelling is deleted in one pass: a keyword the deletion re-forms
      from the letters around it stays. */
  lemma {:induction false} StripWhereKeepsReformed()
    ensures StripWhere("wherwheree") == "where"
  {
    LowerPassReforms();
    var t := "where";
    forall i: nat | i <= |t| ensures !OccursAt(t, "WHERE", i) {
      if i + 5 <= |t| {
        assert t[i..i + 5][0] == t[i];
      }
    }
    ReplaceAllAbsent(t, "WHERE", "");
  }

  lemma {:induction false} LowerPassReforms()
    ensures ReplaceAll("wherwheree", "where", "") == "where"
  {
    var s := "wherwheree";
    forall i: nat | i < 4 ensures !OccursAt(s, "where", i) {
      assert s[i..i + 5][0] == s[i] && s[i..i + 5][1] == s[i + 1];
    }
    ReplaceAllSkip(s, "where", "", 4);
    assert s[..4] == "wher" && s[4..] == "where" + "e";
    ReplaceAllAtHead("e", "where", "");
    assert ReplaceAll("e", "where", "") == "e";
    assert "wher" + ("" + "e") == "where";
  }

  lemma {:induction false} NowhereParts(a: string, m: string, b: string)
    requires a == "DELETE FROM no" && m == " " && b == " "
    ensures a + "where" + (m + "WHERE" + b) == "DELETE FROM nowhere WHERE "
    ensures (a + m) + b == "DELETE FROM no  "
    ensures 'w' !in a && 'W' !in a
  {
  }

  /** The condition step: a null or blank condition deletes the placeholder
      and the WHERE keyword, any other condition replaces the placeholder. */
  function ApplyCondition(q: string, tk: Tokens, condition: Option<string>): (r: string)
    requires tk.Valid()
    ensures !Contains(q, tk.condition) ==> r == q
  {
    if !Contains(q, tk.condition) then q
    else if condition.None? || IsBlank(condition.value) then StripWhere(ReplaceAll(q, tk.condition, ""))
    else ReplaceAll(q, tk.condition, condition.value)
  }

  /** No placeholder of any kind occurs in `s`. */
  ghost predicate NoTokenIn(s: string, tk: Tokens) {
    forall k: TokenKind :: !Contains(s, tk.TokenText(k))
  }

  /** constructQuery: substitutes table name, column types, columns, values,
      column values and condition, in that order. */
  function ConstructQuery(
    tk: Tokens, tableName: string, template: Option<string>,
    columnTypes: Option<string>, columns: Option<string>, values: Option<string>,
    columnValues: Option<string>, condition: Option<string>): (r: Result<string, QueryError>)
    requires tk.Valid()
    ensures template.None? ==> r == Err(NullTemplate)
    ensures template.Some? && columnTypes.Some? && columns.Some? && values.Some? && columnValues.Some? ==> r.Ok?
  {
    match template
    case None => Err(NullTemplate)
    case Some(t) =>
      var r1 := Substitute(t, tk, TableNameToken, Some(tableName));
      if r1.Err? then r1 else
      var r2 := Substitute(r1.value, tk, ColumnTypesToken, columnTypes);
      if r2.Err? then r2 else
      var r3 := Substitute(r2.value, tk, ColumnsToken, columns);
      if r3.Err? then r3 else
      var r4 := Substitute(r3.value, tk, ValuesToken, values);
      if r4.Err? then r4 else
      var r5 := Substitute(r4.value, tk, ColumnValuesToken, columnValues);
      if r5.Err? then r5 else
      Ok(ApplyCondition(r5.value, tk, condition))
  }

  /** A template without placeholders is returned as it is, whatever the
      arguments (null ones included). */
  lemma {:induction false} ConstructQueryWithoutTokens(
    tk: Tokens, tableName: string, template: string,
    columnTypes: Option<string>, columns: Option<string>, values: Option<string>,
    columnValues: Option<string>, condition: Option<string>)
    requires tk.Valid() && NoTokenIn(template, tk)
    ensures ConstructQuery(tk, tableName, Some(template), columnTypes, columns, values, columnValues, condition) == Ok(template)
  {
    assert !Contains(template, tk.TokenText(TableNameToken));
    assert !Contains(template, tk.TokenText(ColumnTypesToken));
    assert !Contains(template, tk.TokenText(ColumnsToken));
    assert !Contains(template, tk.TokenText(ValuesToken));
    assert !Contains(template, tk.TokenText(ColumnValuesToken));
    assert !Contains(template, tk.TokenText(ConditionToken));
  }

  // ---------------------------------------------------------------------------
  // Templates as literal text and placeholders

  datatype Piece = Lit(text: string) | Placeholder(kind: TokenKind)

  function PieceText(tk: Tokens, p: Piece): string {
    match p
    case Lit(s) => s
    case Placeholder(k) => tk.TokenText(k)
  }

  /** The template text the pieces spell. */
  function Flatten(tk: Tokens, ps: seq<Piece>): string {
    if ps == [] then "" else PieceText(tk, ps[0]) + Flatten(tk, ps[1..])
  }

  /** The pieces with every placeholder of kind `k` replaced by the text `a`. */
  function Fill(ps: seq<Piece>, k: TokenKind, a: string): (r: seq<Piece>)
    ensures |r| == |ps|
    ensures forall i :: 0 <= i < |ps| ==> r[i] == if ps[i] == Placeholder(k) then Lit(a) else ps[i]
  {
    if ps == [] then [] else [if ps[0] == Placeholder(k) then Lit(a) else ps[0]] + Fill(ps[1..], k, a)
  }

  function Head(tk: Tokens, k: TokenKind): char
    requires tk.Valid()
  {
    tk.TokenText(k)[0]
  }

  /** No placeholder's first character occurs in `s`. */
  ghost predicate HeadFree(tk: Tokens, s: string)
    requires tk.Valid()
  {
    forall k: TokenKind :: Head(tk, k) !in s
  }

  /** `a` and `b` agree on their common length: one is a prefix of the other. */
  predicate PrefixComparable(a: string, b: string) {
    if |a| <= |b| then b[..|a|] == a else a[..|b|] == b
  }

  /** No placeholder text occurs inside another one, or starts inside another
      one and runs on past its end. */
  ghost predicate TokensApart(tk: Tokens) {
    forall k: TokenKind, k': TokenKind, o: nat :: k != k' && o < |tk.TokenText(k')| ==>
      !PrefixComparable(tk.TokenText(k), tk.TokenText(k')[o..])
  }

  /** No literal piece holds the first character of a placeholder. */
  ghost predicate LiteralsHeadFree(tk: Tokens, ps: seq<Piece>)
    requires tk.Valid()
  {
    forall i :: 0 <= i < |ps| && ps[i].Lit? ==> HeadFree(tk, ps[i].text)
  }

  /** Each placeholder text occurs in the template only where the template has
      that placeholder: no occurrence starts inside any other piece, including
      one that would run on into the pieces after it. */
  ghost predicate Separated(tk: Tokens, ps: seq<Piece>)
    requires tk.Valid()
  {
    forall i, k: TokenKind :: 0 <= i < |ps| && ps[i] != Placeholder(k) ==>
      CleanBefore(Flatten(tk, ps[i..]), tk.TokenText(k), |PieceText(tk, ps[i])|)
  }

  function OrEmpty(o: Option<string>): string {
    if o.Some? then o.value else ""
  }

  lemma {:induction false} SeparatedTail(tk: Tokens, ps: seq<Piece>)
    requires tk.Valid() && ps != [] && Separated(tk, ps)
    ensures Separated(tk, ps[1..])
  {
    forall i, k: TokenKind | 0 <= i < |ps[1..]| && ps[1..][i] != Placeholder(k)
      ensures CleanBefore(Flatten(tk, ps[1..][i..]), tk.TokenText(k), |PieceText(tk, ps[1..][i])|)
    {
      assert ps[1..][i] == ps[i + 1] && ps[1..][i..] == ps[i + 1..];
    }
  }

  /** The template text starting at a piece is that piece's text and then the rest. */
  lemma {:induction false} FlattenFrom(tk: Tokens, ps: seq<Piece>, i: nat)
    requires i < |ps|
    ensures Flatten(tk, ps[i..]) == PieceText(tk, ps[i]) + Flatten(tk, ps[i + 1..])
  {
    assert ps[i..][0] == ps[i] && ps[i..][1..] == ps[i + 1..];
  }

  /** Without a placeholder of kind k, a separated template does not hold its text. */
  lemma {:induction false} TokenAbsentFromFlatten(tk: Tokens, ps: seq<Piece>, k: TokenKind)
    requires tk.Valid() && Separated(tk, ps) && Placeholder(k) !in ps
    ensures !Contains(Flatten(tk, ps), tk.TokenText(k))
    decreases |ps|
  {
    if ps != [] {
      var tok := tk.TokenText(k);
      var x, rest := PieceText(tk, ps[0]), Flatten(tk, ps[1..]);
      var s := Flatten(tk, ps);
      SeparatedTail(tk, ps);
      TokenAbsentFromFlatten(tk, ps[1..], k);
      assert ps[0..] == ps && s == x + rest;
      assert CleanBefore(s, tok, |x|);
      forall j: nat | j <= |s| ensures !OccursAt(s, tok, j) {
        if j >= |x| {
          OccursInTail(x, rest, tok, j);
        }
      }
    }
  }

  /** An occurrence past the first part of a string is one in the rest. */
  lemma {:induction false} OccursInTail(x: string, rest: string, tok: string, j: nat)
    requires |x| <= j
    ensures OccursAt(x + rest, tok, j) ==> OccursAt(rest, tok, j - |x|)
  {
    if OccursAt(x + rest, tok, j) {
      assert (x + rest)[j..j + |tok|] == rest[j - |x|..j - |x| + |tok|];
    }
  }

  /** Placeholders apart from each other and literals free of their first
      characters give a separated template. */
  lemma {:induction false} ApartIsSeparated(tk: Tokens, ps: seq<Piece>)
    requires tk.Valid() && TokensApart(tk) && LiteralsHeadFree(tk, ps)
    ensures Separated(tk, ps)
  {
    forall i, k: TokenKind | 0 <= i < |ps| && ps[i] != Placeholder(k)
      ensures CleanBefore(Flatten(tk, ps[i..]), tk.TokenText(k), |PieceText(tk, ps[i])|)
    {
      PieceClean(tk, ps, i, k);
    }
  }

  lemma {:induction false} PieceClean(tk: Tokens, ps: seq<Piece>, i: nat, k: TokenKind)
    requires tk.Valid() && TokensApart(tk) && LiteralsHeadFree(tk, ps)
    requires i < |ps| && ps[i] != Placeholder(k)
    ensures CleanBefore(Flatten(tk, ps[i..]), tk.TokenText(k), |PieceText(tk, ps[i])|)
  {
    var tok, x, rest := tk.TokenText(k), PieceText(tk, ps[i]), Flatten(tk, ps[i + 1..]);
    FlattenFrom(tk, ps, i);
    forall j: nat | j < |x| ensures !OccursAt(x + rest, tok, j) {
      OccursInside(x, rest, tok, j);
      if ps[i].Lit? {
        assert x[j] != Head(tk, k);
      } else {
        assert k != ps[i].kind;
      }
    }
  }

  /** An occurrence starting inside the first part of a string begins with
      that part's character there and agrees with the rest of that part. */
  lemma {:induction false} OccursInside(x: string, rest: string, tok: string, j: nat)
    requires j < |x| && tok != []
    ensures OccursAt(x + rest, tok, j) ==> x[j] == tok[0] && PrefixComparable(tok, x[j..])
  {
    var s := x + rest;
    if OccursAt(s, tok, j) {
      assert s[j..j + |tok|][0] == s[j] == x[j];
      if |tok| <= |x[j..]| {
        assert x[j..][..|tok|] == s[j..j + |tok|];
      } else {
        assert tok[..|x| - j] == s[j..j + |tok|][..|x| - j] == x[j..];
      }
    }
  }

  /** A placeholder written `{{body}}`. */
  function Braced(body: string): string {
    "{{" + body + "}}"
  }

  /** Placeholders written `{{body}}`, with distinct bodies free of braces, lie
      apart from each other. */
  lemma {:induction false} BracedTokensApart(tk: Tokens, bodies: Tokens)
    requires forall k: TokenKind :: tk.TokenText(k) == Braced(bodies.TokenText(k))
    requires forall k: TokenKind :: '{' !in bodies.TokenText(k) && '}' !in bodies.TokenText(k)
    requires forall k: TokenKind, k': TokenKind :: k != k' ==> bodies.TokenText(k) != bodies.TokenText(k')
    ensures TokensApart(tk)
  {
    forall k: TokenKind, k': TokenKind, o: nat | k != k' && o < |tk.TokenText(k')|
      ensures !PrefixComparable(tk.TokenText(k), tk.TokenText(k')[o..])
    {
      BracedApartAt(bodies.TokenText(k), bodies.TokenText(k'), o);
    }
  }

  lemma {:induction false} BracedApartAt(b: string, c: string, o: nat)
    requires '{' !in b && '}' !in b && '{' !in c && '}' !in c && b != c
    requires o < |Braced(c)|
    ensures !PrefixComparable(Braced(b), Braced(c)[o..])
  {
    var d := DifferAt(b, c, o);
    ComparableAgrees(Braced(b), Braced(c)[o..], d);
  }

  /** Strings that agree on their common length agree at each index of it. */
  lemma {:induction false} ComparableAgrees(t: string, u: string, d: nat)
    requires d < |t| && d < |u|
    ensures PrefixComparable(t, u) ==> t[d] == u[d]
  {
    if PrefixComparable(t, u) {
      if |t| <= |u| {
        assert u[..|t|][d] == u[d];
      } else {
        assert t[..|u|][d] == t[d];
      }
    }
  }

  /** The characters of `{{b}}`. */
  lemma {:induction false} BracedShape(b: string)
    ensures |Braced(b)| == |b| + 4
    ensures Braced(b)[0] == '{' && Braced(b)[1] == '{'
    ensures Braced(b)[|b| + 2] == '}' && Braced(b)[|b| + 3] == '}'
    ensures forall m :: 0 <= m < |b| ==> Braced(b)[m + 2] == b[m]
  {
  }

  /** An index where `{{b}}` and `{{c}}` from offset `o` on differ. */
  lemma {:induction false} DifferAt(b: string, c: string, o: nat) returns (d: nat)
    requires '{' !in b && '}' !in b && '{' !in c && '}' !in c && b != c
    requires o < |Braced(c)|
    ensures d < |Braced(b)| && d < |Braced(c)[o..]| && Braced(b)[d] != Braced(c)[o..][d]
  {
    BracedShape(b);
    BracedShape(c);
    var t, w := Braced(b), Braced(c);
    if o >= 2 {
      d := 0;
      assert w[o..][0] == w[o];
      if o < |c| + 2 {
        assert w[o] == c[o - 2];
      }
    } else if o == 1 {
      d := 1;
      assert w[o..][1] == w[2];
      if |c| > 0 {
        assert w[2] == c[0];
      }
    } else {
      assert w[o..] == w;
      d := DifferAtStart(b, c);
    }
  }

  /** An index where `{{b}}` and `{{c}}` differ. */
  lemma {:induction false} DifferAtStart(b: string, c: string) returns (d: nat)
    requires '{' !in b && '}' !in b && '{' !in c && '}' !in c && b != c
    ensures d < |Braced(b)| && d < |Braced(c)| && Braced(b)[d] != Braced(c)[d]
  {
    BracedShape(b);
    BracedShape(c);
    var t, w := Braced(b), Braced(c);
    if |b| < |c| && c[..|b|] == b {
      d := |b| + 2;
      assert w[d] == c[|b|];
    } else if |c| < |b| && b[..|c|] == c {
      d := |c| + 2;
      assert t[d] == b[|c|];
    } else {
      var m :| 0 <= m < |b| && m < |c| && b[m] != c[m];
      d := m + 2;
    }
  }

  lemma {:induction false} FlattenConcat(tk: Tokens, a: seq<Piece>, b: seq<Piece>)
    ensures Flatten(tk, a + b) == Flatten(tk, a) + Flatten(tk, b)
    decreases |a|
  {
    if a == [] {
      assert a + b == b;
      assert Flatten(tk, a) == [];
      assert [] + Flatten(tk, b) == Flatten(tk, b);
    } else {
      FlattenConsConcat(tk, a, b);
      FlattenConcat(tk, a[1..], b);
      StringsAssociate(PieceText(tk, a[0]), Flatten(tk, a[1..]), Flatten(tk, b));
    }
  }

  /** One unfolding of the template text of a concatenation with a non-empty front. */
  lemma {:induction false} FlattenConsConcat(tk: Tokens, a: seq<Piece>, b: seq<Piece>)
    requires a != []
    ensures Flatten(tk, a + b) == PieceText(tk, a[0]) + Flatten(tk, a[1..] + b)
    ensures Flatten(tk, a) == PieceText(tk, a[0]) + Flatten(tk, a[1..])
  {
    var c := a + b;
    assert c[0] == a[0] && c[1..] == a[1..] + b;
  }

  lemma {:induction false} StringsAssociate(x: string, y: string, z: string)
    ensures (x + y) + z == x + (y + z)
  {
  }

  /** The template text around the piece at index i. */
  lemma {:induction false} FlattenAround(tk: Tokens, ps: seq<Piece>, i: nat)
    requires i < |ps|
    ensures Flatten(tk, ps) == Flatten(tk, ps[..i]) + (PieceText(tk, ps[i]) + Flatten(tk, ps[i + 1..]))
  {
    assert ps == ps[..i] + ([ps[i]] + ps[i + 1..]);
    FlattenConcat(tk, ps[..i], [ps[i]] + ps[i + 1..]);
    FlattenConcat(tk, [ps[i]], ps[i + 1..]);
    assert Flatten(tk, [ps[i]]) == PieceText(tk, ps[i]) + Flatten(tk, []);
  }

  /** A placeholder in the pieces shows up as its text in the template. */
  lemma {:induction false} PlaceholderShowsText(tk: Tokens, ps: seq<Piece>, k: TokenKind, i: nat)
    requires i < |ps| && ps[i] == Placeholder(k)
    ensures Contains(Flatten(tk, ps), tk.TokenText(k))
  {
    FlattenAround(tk, ps, i);
    OccursBetween(Flatten(tk, ps[..i]), tk.TokenText(k), Flatten(tk, ps[i + 1..]));
  }

  /** Under separation the template holds a placeholder's text exactly when it
      has that placeholder. */
  lemma {:induction false} ContainsIffPlaceholder(tk: Tokens, ps: seq<Piece>, k: TokenKind)
    requires tk.Valid() && Separated(tk, ps)
    ensures Contains(Flatten(tk, ps), tk.TokenText(k)) <==> Placeholder(k) in ps
  {
    if Placeholder(k) in ps {
      var i :| 0 <= i < |ps| && ps[i] == Placeholder(k);
      PlaceholderShowsText(tk, ps, k, i);
    } else {
      TokenAbsentFromFlatten(tk, ps, k);
    }
  }

  /** Replacing a placeholder's text in a separated template fills exactly its
      placeholders. */
  lemma {:induction false} FillReplaces(tk: Tokens, ps: seq<Piece>, k: TokenKind, a: string)
    requires tk.Valid() && Separated(tk, ps)
    ensures ReplaceAll(Flatten(tk, ps), tk.TokenText(k), a) == Flatten(tk, Fill(ps, k, a))
    decreases |ps|
  {
    var tok := tk.TokenText(k);
    if ps != [] {
      var rest := Flatten(tk, ps[1..]);
      var s := Flatten(tk, ps);
      SeparatedTail(tk, ps);
      FillReplaces(tk, ps[1..], k, a);
      assert Fill(ps, k, a)[1..] == Fill(ps[1..], k, a);
      if ps[0] == Placeholder(k) {
        assert s == tok + rest;
        assert s[..|tok|] == tok && s[|tok|..] == rest;
      } else {
        var x := PieceText(tk, ps[0]);
        assert s == x + rest;
        assert ps[0..] == ps;
        assert CleanBefore(s, tok, |x|);
        ReplaceAllSkip(s, tok, a, |x|);
        assert s[..|x|] == x && s[|x|..] == rest;
      }
    }
  }

  lemma {:induction false} FillKeepsHeadFree(tk: Tokens, ps: seq<Piece>, k: TokenKind, a: string)
    requires tk.Valid() && LiteralsHeadFree(tk, ps) && HeadFree(tk, a)
    ensures LiteralsHeadFree(tk, Fill(ps, k, a))
    ensures Placeholder(k) !in Fill(ps, k, a)
    ensures forall k': TokenKind :: k' != k ==> (Placeholder(k') in Fill(ps, k, a) <==> Placeholder(k') in ps)
  {
    var r := Fill(ps, k, a);
    forall k': TokenKind | k' != k && Placeholder(k') in ps ensures Placeholder(k') in r {
      var i :| 0 <= i < |ps| && ps[i] == Placeholder(k');
      assert r[i] == ps[i];
    }
  }

  /** Rendering a template whose placeholder texts lie apart from each other,
      with literals and arguments free of their first characters: each
      placeholder present is replaced by its argument; for a null or blank
      condition the condition placeholder is deleted and the WHERE keyword
      stripped from the whole statement. */
  lemma {:induction false} RenderTemplate(
    tk: Tokens, ps: seq<Piece>, tableName: string,
    columnTypes: Option<string>, columns: Option<string>, values: Option<string>,
    columnValues: Option<string>, condition: Option<string>)
    requires tk.Valid() && TokensApart(tk) && LiteralsHeadFree(tk, ps)
    requires HeadFree(tk, tableName) && HeadFree(tk, OrEmpty(columnTypes)) && HeadFree(tk, OrEmpty(columns))
    requires HeadFree(tk, OrEmpty(values)) && HeadFree(tk, OrEmpty(columnValues)) && HeadFree(tk, OrEmpty(condition))
    requires Placeholder(ColumnTypesToken) in ps ==> columnTypes.Some?
    requires Placeholder(ColumnsToken) in ps ==> columns.Some?
    requires Placeholder(ValuesToken) in ps ==> values.Some?
    requires Placeholder(ColumnValuesToken) in ps ==> columnValues.Some?
    ensures
      var p1 := Fill(ps, TableNameToken, tableName);
      var p2 := Fill(p1, ColumnTypesToken, OrEmpty(columnTypes));
      var p3 := Fill(p2, ColumnsToken, OrEmpty(columns));
      var p4 := Fill(p3, ValuesToken, OrEmpty(values));
      var p5 := Fill(p4, ColumnValuesToken, OrEmpty(columnValues));
      var blank := condition.None? || IsBlank(condition.value);
      ConstructQuery(tk, tableName, Some(Flatten(tk, ps)), columnTypes, columns, values, columnValues, condition)
      == Ok(if Placeholder(ConditionToken) in ps && blank
            then StripWhere(Flatten(tk, Fill(p5, ConditionToken, "")))
            else Flatten(tk, Fill(p5, ConditionToken, OrEmpty(condition))))
  {
    RenderSubstitutions(tk, ps, tableName, columnTypes, columns, values, columnValues, condition);
    var p5 := Fill(Fill(Fill(Fill(Fill(ps, TableNameToken, tableName), ColumnTypesToken, OrEmpty(columnTypes)),
      ColumnsToken, OrEmpty(columns)), ValuesToken, OrEmpty(values)), ColumnValuesToken, OrEmpty(columnValues));
    ApartIsSeparated(tk, p5);
    ConditionStep(tk, p5, condition);
  }

  /** The five substitutions of constructQuery on such a template fill its
      placeholders, keep the condition placeholder where it was, and leave
      the condition step to run on the filled template. */
  lemma {:induction false} RenderSubstitutions(
    tk: Tokens, ps: seq<Piece>, tableName: string,
    columnTypes: Option<string>, columns: Option<string>, values: Option<string>,
    columnValues: Option<string>, condition: Option<string>)
    requires tk.Valid() && TokensApart(tk) && LiteralsHeadFree(tk, ps)
    requires HeadFree(tk, tableName) && HeadFree(tk, OrEmpty(columnTypes)) && HeadFree(tk, OrEmpty(columns))
    requires HeadFree(tk, OrEmpty(values)) && HeadFree(tk, OrEmpty(columnValues))
    requires Placeholder(ColumnTypesToken) in ps ==> columnTypes.Some?
    requires Placeholder(ColumnsToken) in ps ==> columns.Some?
    requires Placeholder(ValuesToken) in ps ==> values.Some?
    requires Placeholder(ColumnValuesToken) in ps ==> columnValues.Some?
    ensures
      var p5 := Fill(Fill(Fill(Fill(Fill(ps, TableNameToken, tableName), ColumnTypesToken, OrEmpty(columnTypes)),
        ColumnsToken, OrEmpty(columns)), ValuesToken, OrEmpty(values)), ColumnValuesToken, OrEmpty(columnValues));
      && LiteralsHeadFree(tk, p5)
      && (Placeholder(ConditionToken) in p5 <==> Placeholder(ConditionToken) in ps)
      && ConstructQuery(tk, tableName, Some(Flatten(tk, ps)), columnTypes, columns, values, columnValues, condition)
         == Ok(ApplyCondition(Flatten(tk, p5), tk, condition))
  {
    var p1 := Fill(ps, TableNameToken, tableName);
    var p2 := Fill(p1, ColumnTypesToken, OrEmpty(columnTypes));
    var p3 := Fill(p2, ColumnsToken, OrEmpty(columns));
    var p4 := Fill(p3, ValuesToken, OrEmpty(values));
    var p5 := Fill(p4, ColumnValuesToken, OrEmpty(columnValues));
    RenderStage(tk, ps, TableNameToken, Some(tableName));
    RenderStage(tk, p1, ColumnTypesToken, columnTypes);
    RenderLastStages(tk, p2, columns, values, columnValues);
    ConstructQueryChain(tk, tableName, Flatten(tk, ps), columnTypes, columns, values, columnValues, condition,
      Flatten(tk, p1), Flatten(tk, p2), Flatten(tk, p3), Flatten(tk, p4), Flatten(tk, p5));
  }

  /** The column, value and column-value substitutions of constructQuery. */
  lemma {:induction false} RenderLastStages(
    tk: Tokens, ps: seq<Piece>, columns: Option<string>, values: Option<string>, columnValues: Option<string>)
    requires tk.Valid() && TokensApart(tk) && LiteralsHeadFree(tk, ps)
    requires HeadFree(tk, OrEmpty(columns)) && HeadFree(tk, OrEmpty(values)) && HeadFree(tk, OrEmpty(columnValues))
    requires Placeholder(ColumnsToken) in ps ==> columns.Some?
    requires Placeholder(ValuesToken) in ps ==> values.Some?
    requires Placeholder(ColumnValuesToken) in ps ==> columnValues.Some?
    ensures
      var p3 := Fill(ps, ColumnsToken, OrEmpty(columns));
      var p4 := Fill(p3, ValuesToken, OrEmpty(values));
      var p5 := Fill(p4, ColumnValuesToken, OrEmpty(columnValues));
      && Substitute(Flatten(tk, ps), tk, ColumnsToken, columns) == Ok(Flatten(tk, p3))
      && Substitute(Flatten(tk, p3), tk, ValuesToken, values) == Ok(Flatten(tk, p4))
      && Substitute(Flatten(tk, p4), tk, ColumnValuesToken, columnValues) == Ok(Flatten(tk, p5))
      && LiteralsHeadFree(tk, p5)
      && (Placeholder(ConditionToken) in p5 <==> Placeholder(ConditionToken) in ps)
  {
    var p3 := Fill(ps, ColumnsToken, OrEmpty(columns));
    var p4 := Fill(p3, ValuesToken, OrEmpty(values));
    RenderStage(tk, ps, ColumnsToken, columns);
    RenderStage(tk, p3, ValuesToken, values);
    RenderStage(tk, p4, ColumnValuesToken, columnValues);
  }

  /** Placeholder names in the upper-case style; the dialect's actual
      placeholder constants are not part of this model. */
  function PlaceholderNames(): Tokens {
    Tokens("TABLE_NAME", "COLUMN_TYPES", "COLUMNS", "VALUES", "COLUMN_VALUES", "CONDITION")
  }

  /** The `{{NAME}}` placeholders: all six share their first character. */
  function BracedTokens(): (tk: Tokens)
    ensures tk.Valid()
  {
    Tokens(Braced("TABLE_NAME"), Braced("COLUMN_TYPES"), Braced("COLUMNS"),
           Braced("VALUES"), Braced("COLUMN_VALUES"), Braced("CONDITION"))
  }

  predicate NameChars(b: string) {
    forall i :: 0 <= i < |b| ==> 'A' <= b[i] <= 'Z' || b[i] == '_'
  }

  lemma {:induction false} NameHasNoBraces(b: string)
    requires NameChars(b)
    ensures '{' !in b && '}' !in b
  {
  }

  lemma {:induction false} PlaceholderNamesBraceFree()
    ensures forall k: TokenKind :: '{' !in PlaceholderNames().TokenText(k) && '}' !in PlaceholderNames().TokenText(k)
  {
    assert forall k: TokenKind :: NameChars(PlaceholderNames().TokenText(k));
    forall k: TokenKind ensures '{' !in PlaceholderNames().TokenText(k) && '}' !in PlaceholderNames().TokenText(k) {
      NameHasNoBraces(PlaceholderNames().TokenText(k));
    }
  }

  lemma {:induction false} PlaceholderNamesDistinct()
    ensures forall k: TokenKind, k': TokenKind :: k != k' ==> PlaceholderNames().TokenText(k) != PlaceholderNames().TokenText(k')
  {
    forall k: TokenKind, k': TokenKind | k != k' ensures PlaceholderNames().TokenText(k) != PlaceholderNames().TokenText(k') {
      assert |PlaceholderNames().TokenText(k)| != |PlaceholderNames().TokenText(k')|;
    }
  }

  /** `{{NAME}}` placeholders lie apart from each other although they share
      their first character. */
  lemma {:induction false} BracedTokensAreApart()
    ensures TokensApart(BracedTokens())
  {
    PlaceholderNamesBraceFree();
    PlaceholderNamesDistinct();
    assert forall k: TokenKind :: BracedTokens().TokenText(k) == Braced(PlaceholderNames().TokenText(k));
    BracedTokensApart(BracedTokens(), PlaceholderNames());
  }

  /** The select template as pieces, before and after the table name is filled. */
  lemma {:induction false} BracedSelectPieces(ps: seq<Piece>)
    requires ps == [Lit("SELECT * FROM "), Placeholder(TableNameToken)]
    ensures Flatten(BracedTokens(), ps) == "SELECT * FROM " + Braced("TABLE_NAME")
    ensures Flatten(BracedTokens(), Fill(ps, TableNameToken, "StockTable")) == "SELECT * FROM StockTable"
  {
    var tk := BracedTokens();
    assert ps[1..] == [Placeholder(TableNameToken)] && ps[1..][1..] == [];
    assert Flatten(tk, ps[1..]) == Braced("TABLE_NAME") + "";
    var p1 := Fill(ps, TableNameToken, "StockTable");
    assert p1 == [Lit("SELECT * FROM "), Lit("StockTable")];
    assert p1[1..] == [Lit("StockTable")] && p1[1..][1..] == [];
    assert Flatten(tk, p1[1..]) == "StockTable" + "";
  }

  lemma {:induction false} BracedSelectHeadFree(ps: seq<Piece>)
    requires ps == [Lit("SELECT * FROM "), Placeholder(TableNameToken)]
    ensures LiteralsHeadFree(BracedTokens(), ps)
    ensures HeadFree(BracedTokens(), "StockTable") && HeadFree(BracedTokens(), "")
  {
    var tk := BracedTokens();
    assert forall k: TokenKind :: Head(tk, k) == '{';
  }

  /** With `{{NAME}}` placeholders, whose first characters all coincide, a
      select template renders with the table name in place of its placeholder. */
  lemma {:induction false} BracedSelectRenders()
    ensures ConstructQuery(BracedTokens(), "StockTable", Some("SELECT * FROM " + Braced("TABLE_NAME")), None, None, None, None, None)
      == Ok("SELECT * FROM StockTable")
  {
    var tk := BracedTokens();
    var ps := [Lit("SELECT * FROM "), Placeholder(TableNameToken)];
    BracedTokensAreApart();
    BracedSelectPieces(ps);
    BracedSelectHeadFree(ps);
    RenderTemplate(tk, ps, "StockTable", None, None, None, None, None);
    var p1 := Fill(ps, TableNameToken, "StockTable");
    FillAbsent(p1, ColumnTypesToken, "");
    FillAbsent(p1, ColumnsToken, "");
    FillAbsent(p1, ValuesToken, "");
    FillAbsent(p1, ColumnValuesToken, "");
    FillAbsent(p1, ConditionToken, "");
  }

  /** Filling a kind the pieces lack changes nothing. */
  lemma {:induction false} FillAbsent(ps: seq<Piece>, k: TokenKind, a: string)
    requires Placeholder(k) !in ps
    ensures Fill(ps, k, a) == ps
  {
  }

  /** One substitution step of the rendering, with what the next step needs. */
  lemma {:induction false} RenderStage(tk: Tokens, ps: seq<Piece>, k: TokenKind, arg: Option<string>)
    requires tk.Valid() && TokensApart(tk) && LiteralsHeadFree(tk, ps) && HeadFree(tk, OrEmpty(arg))
    requires Placeholder(k) in ps ==> arg.Some?
    ensures Substitute(Flatten(tk, ps), tk, k, arg) == Ok(Flatten(tk, Fill(ps, k, OrEmpty(arg))))
    ensures LiteralsHeadFree(tk, Fill(ps, k, OrEmpty(arg)))
    ensures forall k': TokenKind :: k' != k ==> (Placeholder(k') in Fill(ps, k, OrEmpty(arg)) <==> Placeholder(k') in ps)
  {
    ApartIsSeparated(tk, ps);
    SubstituteStep(tk, ps, k, arg);
    FillKeepsHeadFree(tk, ps, k, OrEmpty(arg));
  }

  /** constructQuery is the five substitutions, in order, then the condition
      step, when none of the substitutions fails. */
  lemma {:induction false} ConstructQueryChain(
    tk: Tokens, tableName: string, t: string,
    columnTypes: Option<string>, columns: Option<string>, values: Option<string>,
    columnValues: Option<string>, condition: Option<string>,
    s1: string, s2: string, s3: string, s4: string, s5: string)
    requires tk.Valid()
    requires Substitute(t, tk, TableNameToken, Some(tableName)) == Ok(s1)
    requires Substitute(s1, tk, ColumnTypesToken, columnTypes) == Ok(s2)
    requires Substitute(s2, tk, ColumnsToken, columns) == Ok(s3)
    requires Substitute(s3, tk, ValuesToken, values) == Ok(s4)
    requires Substitute(s4, tk, ColumnValuesToken, columnValues) == Ok(s5)
    ensures ConstructQuery(tk, tableName, Some(t), columnTypes, columns, values, columnValues, condition)
      == Ok(ApplyCondition(s5, tk, condition))
  {
  }

  /** The condition step on a separated template. */
  lemma {:induction false} ConditionStep(tk: Tokens, ps: seq<Piece>, condition: Option<string>)
    requires tk.Valid() && Separated(tk, ps)
    ensures ApplyCondition(Flatten(tk, ps), tk, condition)
      == if Placeholder(ConditionToken) in ps && (condition.None? || IsBlank(condition.value))
         then StripWhere(Flatten(tk, Fill(ps, ConditionToken, "")))
         else Flatten(tk, Fill(ps, ConditionToken, OrEmpty(condition)))
  {
    ContainsIffPlaceholder(tk, ps, ConditionToken);
    FillReplaces(tk, ps, ConditionToken, "");
    FillReplaces(tk, ps, ConditionToken, OrEmpty(condition));
    if Placeholder(ConditionToken) !in ps {
      assert Fill(ps, ConditionToken, OrEmpty(condition)) == ps;
    }
  }

  /** One substitution step on a separated template. */
  lemma {:induction false} SubstituteStep(tk: Tokens, ps: seq<Piece>, k: TokenKind, arg: Option<string>)
    requires tk.Valid() && Separated(tk, ps)
    requires Placeholder(k) in ps ==> arg.Some?
    ensures Substitute(Flatten(tk, ps), tk, k, arg) == Ok(Flatten(tk, Fill(ps, k, OrEmpty(arg))))
  {
    ContainsIffPlaceholder(tk, ps, k);
    FillReplaces(tk, ps, k, OrEmpty(arg));
    if Placeholder(k) !in ps {
      assert Fill(ps, k, OrEmpty(arg)) == ps;
    }
  }

  // ---------------------------------------------------------------------------
  // The fragment lists of initializeDatabaseExecutionInfo

  /** The dialect's column type for an attribute type; OBJECT has none. */
  function TypeLiteral(d: Dialect, t: AttrType): string {
    match t
    case INT => AppendText(d, IntegerType)
    case LONG => AppendText(d, LongType)
    case FLOAT => AppendText(d, FloatType)
    case DOUBLE => AppendText(d, DoubleType)
    case STRING => AppendText(d, StringType)
    case BOOL => AppendText(d, BooleanType)
    case OBJECT => ""
  }

  /** One column definition: upper-cased name, two spaces, dialect type. */
  function ColumnTypeEntry(d: Dialect, a: Attribute): string {
    Upper(a.name) + "  " + TypeLiteral(d, a.attrType)
  }

  function ColumnTypeEntries(d: Dialect, attrs: seq<Attribute>): (r: seq<string>)
    ensures |r| == |attrs|
  {
    seq(|attrs|, i requires 0 <= i < |attrs| => ColumnTypeEntry(d, attrs[i]))
  }

  function ColumnNames(attrs: seq<Attribute>): (r: seq<string>)
    ensures |r| == |attrs|
  {
    seq(|attrs|, i requires 0 <= i < |attrs| => attrs[i].name)
  }

  function Repeat(s: string, n: nat): (r: seq<string>)
    ensures |r| == n
  {
    seq(n, _ => s)
  }

  /** The loop over the attribute list that fills the three StringBuilders,
      separating entries with the dialect's comma once the first is written. */
  method BuildFragments(d: Dialect, attrs: seq<Attribute>) returns (columnTypes: string, columns: string, values: string)
    ensures columnTypes == JoinWith(ColumnTypeEntries(d, attrs), AppendText(d, Comma))
    ensures columns == JoinWith(ColumnNames(attrs), AppendText(d, Comma))
    ensures values == JoinWith(Repeat(AppendText(d, QuestionMark), |attrs|), AppendText(d, Comma))
  {
    var comma := AppendText(d, Comma);
    var mark := AppendText(d, QuestionMark);
    ghost var entries := ColumnTypeEntries(d, attrs);
    ghost var names := ColumnNames(attrs);
    ghost var marks := Repeat(mark, |attrs|);
    columnTypes, columns, values := "", "", "";
    var appendComma := false;
    for j := 0 to |attrs|
      invariant appendComma <==> j > 0
      invariant columnTypes == JoinWith(entries[..j], comma)
      invariant columns == JoinWith(names[..j], comma)
      invariant values == JoinWith(marks[..j], comma)
    {
      JoinPrefixStep(entries, j, comma);
      JoinPrefixStep(names, j, comma);
      JoinPrefixStep(marks, j, comma);
      var attribute := attrs[j];
      var columnName := Upper(attribute.name);
      if appendComma {
        columnTypes := columnTypes + comma;
      }
      var definition := columnName + "  " + TypeLiteral(d, attribute.attrType);
      assert definition == entries[j];
      columnTypes := columnTypes + definition;
      if appendComma {
        columns := columns + comma;
        values := values + comma;
      } else {
        appendComma := true;
      }
      columns := columns + attribute.name;
      values := values + mark;
    }
    assert entries[..|attrs|] == entries;
    assert names[..|attrs|] == names;
    assert marks[..|attrs|] == marks;
  }

  lemma {:induction false} UpperKeepsNonLetter(s: string, c: char)
    requires c !in s && !('a' <= c <= 'z') && !('A' <= c <= 'Z')
    ensures c !in Upper(s)
  {
    forall i | 0 <= i < |s| ensures Upper(s)[i] != c {
      if 'a' <= s[i] <= 'z' {
        assert 'A' as int <= UpperChar(s[i]) as int <= 'Z' as int;
      }
    }
  }

  /** With a one-character comma that no name and no type literal contains,
      the three lists read back as the attribute names, the column
      definitions and exactly one question mark per attribute. */
  lemma {:induction false} FragmentListsReadBack(d: Dialect, attrs: seq<Attribute>, c: char)
    requires |attrs| >= 1 && AppendText(d, Comma) == [c]
    requires !('a' <= c <= 'z') && !('A' <= c <= 'Z') && c != ' '
    requires forall i :: 0 <= i < |attrs| ==> c !in attrs[i].name && c !in TypeLiteral(d, attrs[i].attrType)
    requires c !in AppendText(d, QuestionMark)
    ensures SplitOnChar(JoinWith(ColumnNames(attrs), [c]), c) == ColumnNames(attrs)
    ensures SplitOnChar(JoinWith(ColumnTypeEntries(d, attrs), [c]), c) == ColumnTypeEntries(d, attrs)
    ensures SplitOnChar(JoinWith(Repeat(AppendText(d, QuestionMark), |attrs|), [c]), c) == Repeat(AppendText(d, QuestionMark), |attrs|)
  {
    SplitJoinRoundTrip(ColumnNames(attrs), c);
    forall i | 0 <= i < |attrs| ensures c !in ColumnTypeEntries(d, attrs)[i] {
      UpperKeepsNonLetter(attrs[i].name, c);
    }
    SplitJoinRoundTrip(ColumnTypeEntries(d, attrs), c);
    SplitJoinRoundTrip(Repeat(AppendText(d, QuestionMark), |attrs|), c);
  }

  /** Product names that differ only in case select the same dialect. */
  lemma {:induction false} DialectLookupIgnoresCase(registry: map<string, Dialect>, product: string)
    ensures SelectDialect(registry, Upper(product)) == SelectDialect(registry, product)
  {
    LowerOfUpper(product);
  }

  // ---------------------------------------------------------------------------
  // Execution info

  /** The statements and column orders of one table. The condition, update and
      delete orders are supplied by the condition compiler, which is not part
      of this model; initialisation leaves them empty. */
  datatype ExecutionInfo = ExecutionInfo(
    createTableStatement: string,
    insertStatement: string,
    tableExistStatement: string,
    insertOrder: seq<Attribute>,
    conditionOrder: seq<Attribute>,
    updateOrder: seq<Attribute>,
    deleteOrder: seq<Attribute>)

  /** An unmapped product leaves the dialect null, whose first dereference
      aborts table construction; a missing template aborts it in constructQuery. */
  datatype InitError = UnknownDialect | QueryFailed(error: QueryError)

  /** initializeDatabaseExecutionInfo after the product name has been read. */
  method InitExecutionInfo(tk: Tokens, registry: map<string, Dialect>, product: string,
                           tableName: string, attrs: seq<Attribute>)
    returns (r: Result<ExecutionInfo, InitError>)
    requires tk.Valid()
    ensures Lower(product) !in registry ==> r == Err(UnknownDialect)
    ensures r.Ok? ==>
      var d := registry[Lower(product)];
      var comma := AppendText(d, Comma);
      && Lower(product) in registry
      && r.value.insertOrder == attrs
      && ConstructQuery(tk, tableName, TemplateOf(d, CreateTable),
           Some(JoinWith(ColumnTypeEntries(d, attrs), comma)), None, None, None, None)
         == Ok(r.value.createTableStatement)
      && ConstructQuery(tk, tableName, TemplateOf(d, InsertData), None,
           Some(JoinWith(ColumnNames(attrs), comma)),
           Some(JoinWith(Repeat(AppendText(d, QuestionMark), |attrs|), comma)), None, None)
         == Ok(r.value.insertStatement)
      && ConstructQuery(tk, tableName, TemplateOf(d, TableExist), None, None, None, None, None)
         == Ok(r.value.tableExistStatement)
    ensures r.Err? && r.error.QueryFailed? ==> Lower(product) in registry
    ensures Lower(product) in registry ==>
      var d := registry[Lower(product)];
      var comma := AppendText(d, Comma);
      var create := ConstructQuery(tk, tableName, TemplateOf(d, CreateTable),
        Some(JoinWith(ColumnTypeEntries(d, attrs), comma)), None, None, None, None);
      var insert := ConstructQuery(tk, tableName, TemplateOf(d, InsertData), None,
        Some(JoinWith(ColumnNames(attrs), comma)),
        Some(JoinWith(Repeat(AppendText(d, QuestionMark), |attrs|), comma)), None, None);
      var exist := ConstructQuery(tk, tableName, TemplateOf(d, TableExist), None, None, None, None, None);
      && (r.Ok? <==> create.Ok? && insert.Ok? && exist.Ok?)
      // the error reported is that of the first statement that could not be built
      && (r.Err? ==> r.error == QueryFailed(
            if create.Err? then create.error else if insert.Err? then insert.error else exist.error))
  {
    var dialect := SelectDialect(registry, product);
    if dialect.None? {
      return Err(UnknownDialect);
    }
    var d := dialect.value;
    var columnTypes, columns, values := BuildFragments(d, attrs);
    var create := ConstructQuery(tk, tableName, TemplateOf(d, CreateTable), Some(columnTypes), None, None, None, None);
    if create.Err? {
      return Err(QueryFailed(create.error));
    }
    var insert := ConstructQuery(tk, tableName, TemplateOf(d, InsertData), None, Some(columns), Some(values), None, None);
    if insert.Err? {
      return Err(QueryFailed(insert.error));
    }
    var existCheck := ConstructQuery(tk, tableName, TemplateOf(d, TableExist), None, None, None, None, None);
    if existCheck.Err? {
      return Err(QueryFailed(existCheck.error));
    }
    r := Ok(ExecutionInfo(create.value, insert.value, existCheck.value, attrs, [], [], []));
  }
}
