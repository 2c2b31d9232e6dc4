/**
 Where the gateway's FINAL rewrite stops being the right one: it puts FINAL in front of an alias, and
 ClickHouse's grammar only has it behind. Told by the full grammar's parser.
 */
module AliasBreaks {
  import opened FinalRewriter
  import opened SqlGrammar
  import opened GatewayRewriter

  /** SELECT items FROM brain.table alias [FINAL] tail. */
  function Bare(items: Elems, table: string, alias: Alias, final: bool, tail: Elems): Query {
    Select(items, Table(Named("brain"), table, alias, final), NoJoins, tail)
  }

  /** Top-level tokens only. */
  predicate Plain(e: Elems) { e.Nil? || (e.Atom? && Plain(e.rest)) }

  function Tokens(e: Elems): seq<Token>
    requires Plain(e)
  {
    if e.Nil? then [] else [e.t] + Tokens(e.rest)
  }

  /** Items and tail of plain tokens, the tail empty or begun by WHERE, PREWHERE or another clause. */
  predicate PlainParts(items: Elems, tail: Elems) {
    && Plain(items) && WfElems({}, InItems, items)
    && Plain(tail) && WfElems({}, InTail, tail) && (tail.Nil? || (tail.Atom? && StartsTail(tail.t)))
  }

  lemma {:induction false} PrintsTokens(zone: Zone, e: Elems, k: seq<Token>)
    requires Plain(e) && WfElems({}, zone, e)
    ensures PrintElems(e, k) == Tokens(e) + k
    ensures Kw(FROM) !in Tokens(e)
  {
    if e.Nil? {
      assert [] + k == k;
    } else {
      PrintsTokens(zone, e.rest, k);
      assert [e.t] + (Tokens(e.rest) + k) == ([e.t] + Tokens(e.rest)) + k;
    }
  }

  function Head(table: string): seq<Token> { [Kw(FROM), Word("brain"), Dot, Word(table)] }

  /** What stands behind the table. */
  function Behind(alias: Alias, final: bool, tail: Elems): seq<Token>
    requires Plain(tail)
  {
    AliasTokens(alias) + (Mark(final) + Tokens(tail))
  }

  /** SELECT items FROM brain.table rest. */
  function Text(items: Elems, table: string, rest: seq<Token>): seq<Token> {
    [Kw(SELECT)] + PrintElems(items, Head(table) + rest)
  }

  lemma PrintsBare(items: Elems, table: string, alias: Alias, final: bool, tail: Elems)
    requires PlainParts(items, tail)
    ensures Print(Bare(items, table, alias, final, tail)) == Text(items, table, Behind(alias, final, tail))
  {
    hide PrintElems, WfElems, Tokens;
    var q := Bare(items, table, alias, final, tail);
    PrintsTokens(InTail, tail, []);
    assert PrintElems(tail, []) == Tokens(tail) by { assert Tokens(tail) + [] == Tokens(tail); }
    assert PrintJoins(NoJoins, Tokens(tail)) == Tokens(tail);
    assert Print(q) == PrintSelect(q, []);
    assert PrintSource(q.src, Tokens(tail)) == [Word("brain"), Dot, Word(table)] + Behind(alias, final, tail);
    assert [Kw(FROM)] + PrintSource(q.src, Tokens(tail)) == Head(table) + Behind(alias, final, tail);
  }

  lemma BehindIsPlain(alias: Alias, final: bool, tail: Elems)
    requires Plain(tail) && WfElems({}, InTail, tail) && (tail.Nil? || (tail.Atom? && StartsTail(tail.t)))
    ensures
      var rest := Behind(alias, final, tail);
      && Kw(FROM) !in rest && Boundary(rest) && (!alias.NoAlias? ==> !StartsWithFinal(rest))
      && Kw(FROM) !in Tokens(tail) && Boundary(Tokens(tail)) && !StartsWithFinal(Tokens(tail))
  {
    PrintsTokens(InTail, tail, []);
    assert Tokens(tail) == [] || Tokens(tail)[0] == tail.t;
    if alias.NoAlias? { assert Behind(alias, final, tail) == Mark(final) + Tokens(tail); }
  }

  /** What _inject_final leaves behind the table. */
  function InjectedBehind(rmt: set<string>, table: string, alias: Alias, final: bool, tail: Elems): seq<Token>
    requires Plain(tail)
  {
    if table !in rmt then Behind(alias, final, tail)
    else if alias.NoAlias? then Behind(NoAlias, true, tail)
    else [Kw(FINAL)] + Behind(alias, final, tail)
  }

  lemma InjectsBehind(rmt: set<string>, table: string, alias: Alias, final: bool, tail: Elems)
    requires Plain(tail) && WfElems({}, InTail, tail) && (tail.Nil? || (tail.Atom? && StartsTail(tail.t)))
    ensures InjectFinal(rmt, Head(table) + Behind(alias, final, tail)) ==
            Head(table) + InjectedBehind(rmt, table, alias, final, tail)
  {
    hide InjectFinal, WfElems, Tokens, AliasTokens, Behind;
    var rest := Behind(alias, final, tail);
    BehindIsPlain(alias, final, tail);
    Unchanged(rmt, rest);
    if table !in rmt {
      InjectsNothing(rmt, table, rest);
    } else if alias.NoAlias? {
      UnaliasedBehind(final, tail);
      UnaliasedBehind(true, tail);
      Unchanged(rmt, Tokens(tail));
      MatchStep(rmt, Head(table), Tokens(tail));
    } else {
      MatchStep(rmt, Head(table), rest);
    }
  }

  lemma InjectsNothing(rmt: set<string>, table: string, rest: seq<Token>)
    requires table !in rmt && Kw(FROM) !in rest
    ensures InjectFinal(rmt, Head(table) + rest) == Head(table) + rest
  {
    hide InjectFinal;
    var ts := Head(table) + rest;
    assert ts == [Kw(FROM)] + ts[1..] && Kw(FROM) !in ts[1..];
    NoMatchStep(rmt, ts);
    Unchanged(rmt, ts[1..]);
  }

  lemma UnaliasedBehind(final: bool, tail: Elems)
    requires Plain(tail)
    ensures Behind(NoAlias, final, tail) == if final then [Kw(FINAL)] + Tokens(tail) else Tokens(tail)
  {
    hide Tokens;
    NothingForNoAlias();
    assert Behind(NoAlias, final, tail) == Mark(final) + Tokens(tail);
  }

  lemma NothingForNoAlias()
    ensures AliasTokens(NoAlias) == []
  {
  }

  lemma InjectsText(rmt: set<string>, items: Elems, table: string, alias: Alias, final: bool, tail: Elems)
    requires PlainParts(items, tail)
    ensures InjectFinal(rmt, Print(Bare(items, table, alias, final, tail))) ==
            Text(items, table, InjectedBehind(rmt, table, alias, final, tail))
  {
    hide InjectFinal, Print, PrintElems, Tokens, WfElems, Behind, InjectedBehind;
    var front := [Kw(SELECT)] + Tokens(items);
    var from := Head(table) + Behind(alias, final, tail);
    var done := Head(table) + InjectedBehind(rmt, table, alias, final, tail);
    PrintsBare(items, table, alias, final, tail);
    PrintsTokens(InItems, items, from);
    PrintsTokens(InItems, items, done);
    assert [Kw(SELECT)] + (Tokens(items) + from) == front + from;
    assert (front + from)[..|front|] == front && (front + from)[|front|..] == from;
    KeptPrefix(rmt, front + from, |front|);
    InjectsBehind(rmt, table, alias, final, tail);
    assert front + done == [Kw(SELECT)] + (Tokens(items) + done);
  }

  /** Behind FINAL an alias is neither join nor tail: it is left over. */
  lemma AliasIsLeftOver(table: string, alias: Alias, more: seq<Token>)
    requires !alias.NoAlias?
    ensures
      var rest := AliasTokens(alias) + more;
      && ParseTable((Head(table) + ([Kw(FINAL)] + rest))[1..]) == Got(Table(Named("brain"), table, NoAlias, true), rest)
      && ParseJoins(rest) == Got(NoJoins, rest) && ParseTail(rest) == Got(Nil, rest) && rest != []
  {
    var rest := AliasTokens(alias) + more;
    var mark := [Kw(FINAL)] + rest;
    var text := (Head(table) + mark)[1..];
    assert text == [Word("brain"), Dot, Word(table)] + mark && text[3..] == mark && mark[1..] == rest;
    assert rest[0] == AliasTokens(alias)[0];
    assert ParseKinds(rest) == ([], rest);
  }

  /** FINAL in front of an alias leaves the alias over, whatever follows: the statement does not parse. */
  lemma BrokenNeverParses(items: Elems, table: string, alias: Alias, more: seq<Token>)
    requires WfElems({}, InItems, items) && !alias.NoAlias?
    ensures Parse(Text(items, table, [Kw(FINAL)] + (AliasTokens(alias) + more))).Fail?
  {
    hide ParseTable, ParseJoins, ParseTail, ParseElems, PrintElems, WfElems, AliasTokens;
    var atFrom := Head(table) + ([Kw(FINAL)] + (AliasTokens(alias) + more));
    assert EndsElems(InItems, atFrom);
    ParsesElems({}, InItems, items, atFrom);
    AliasIsLeftOver(table, alias, more);
    assert atFrom[0] == Kw(FROM) && atFrom[1..][0] == Word("brain");
    var text := Text(items, table, [Kw(FINAL)] + (AliasTokens(alias) + more));
    assert text[0] == Kw(SELECT) && text[1..] == PrintElems(items, atFrom);
    assert ParseElems(InItems, text[1..]) == Got(items, atFrom);
    assert ParseSource(atFrom[1..]) == ParseTable(atFrom[1..]);
    var read := Select(items, Table(Named("brain"), table, NoAlias, true), NoJoins, Nil);
    assert ParseSelect(text) == Got(read, AliasTokens(alias) + more);
    assert ParseQuery(text) == ParseSelect(text);
  }

  lemma BareParses(items: Elems, table: string, alias: Alias, final: bool, tail: Elems)
    requires PlainParts(items, tail)
    ensures Parse(Text(items, table, Behind(alias, final, tail))).Got?
  {
    hide Parse, Print, WfElems, Text, Behind, Plain;
    var q := Bare(items, table, alias, final, tail);
    assert WfSource({}, q.src) && WfJoins({}, NoJoins);
    ParsePrint({}, q);
    PrintsBare(items, table, alias, final, tail);
  }

  /**
   For SELECT items FROM brain.t alias [FINAL] tail, filter and FINAL present or not, what the gateway
   makes of it parses exactly when there is no alias or t is not one of its tables.
   */
  lemma InjectedParsesExactly(rmt: set<string>, items: Elems, table: string, alias: Alias, final: bool, tail: Elems)
    requires PlainParts(items, tail)
    ensures Parse(InjectFinal(rmt, Print(Bare(items, table, alias, final, tail)))).Got? <==>
            alias.NoAlias? || table !in rmt
  {
    hide Parse, InjectFinal, Print, Text, WfElems, Plain;
    InjectsText(rmt, items, table, alias, final, tail);
    if table !in rmt {
      BareParses(items, table, alias, final, tail);
    } else if alias.NoAlias? {
      BareParses(items, table, NoAlias, true, tail);
    } else {
      BrokenNeverParses(items, table, alias, Mark(final) + Tokens(tail));
    }
  }
}
