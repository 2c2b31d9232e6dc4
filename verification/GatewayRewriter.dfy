/**
 The Python gateway's FINAL rewrite on token sequences, and where it agrees with the TypeScript rewriter.
 */
module GatewayRewriter {
  import opened FinalRewriter
  import opened SqlGrammar

  const RMT_TABLES: set<string> := {
    "connector_order_facts", "connector_line_item_facts", "connector_ad_spend_facts", "connector_shipment_facts",
    "connector_product_facts", "connector_refund_facts", "connector_variant_facts", "connector_email_send_facts",
    "connector_logistics_order_facts", "connector_ad_creative_facts", "connector_ad_funnel_facts",
    "workspace_daily_metrics_base"}

  // ----- _inject_final --------------------------------------------------------------------------

  /** The look-ahead after a table: white space, the end, ';' or ')'. Dots, commas and '(' cling. */
  predicate Boundary(rest: seq<Token>) {
    rest == [] || !(rest[0].Dot? || rest[0].Comma? || rest[0].LParen?)
  }

  /** FROM brain.t for a table t that needs FINAL. */
  predicate FromTable(rmt: set<string>, ts: seq<Token>) {
    |ts| >= 4 && ts[0] == Kw(FROM) && ts[1] == Word("brain") && ts[2] == Dot && ts[3].Word? && ts[3].name in rmt
  }

  function InjectFinal(rmt: set<string>, ts: seq<Token>): seq<Token>
    decreases |ts|
  {
    if ts == [] then []
    else if FromTable(rmt, ts) && StartsWithFinal(ts[4..]) && Boundary(ts[5..]) then
      ts[..5] + InjectFinal(rmt, ts[5..])
    else if FromTable(rmt, ts) && Boundary(ts[4..]) then
      ts[..4] + ([Kw(FINAL)] + InjectFinal(rmt, ts[4..]))
    else [ts[0]] + InjectFinal(rmt, ts[1..])
  }

  // ----- agreement with decorateWithFinal -------------------------------------------------------

  /** No alias follows: the next token is neither AS nor anything the alias pattern would take. */
  predicate NoAliasHere(rest: seq<Token>) {
    rest == [] || (rest[0] != Kw(AS) && !AliasWord(rest[0]))
  }

  /** At this position the two patterns see the same: no JOIN, and FROM only in shapes both know. */
  predicate SharedShape(facts: set<string>, rmt: set<string>, ts: seq<Token>)
    requires ts != []
  {
    && ts[0] != Kw(JOIN)
    && (ts[0] == Kw(FROM) ==>
          if TableLength(facts, ts[1..]) == 3 then
            && ts[3].name in rmt && NoAliasHere(ts[4..]) && Boundary(ts[4..])
            && (StartsWithFinal(ts[4..]) ==> Boundary(ts[5..]))
          else TableLength(facts, ts[1..]) == 0 && !FromTable(rmt, ts))
  }

  /** Alias-free reads of brain tables that both sets name, without JOIN. */
  predicate Shared(facts: set<string>, rmt: set<string>, ts: seq<Token>) {
    forall i | 0 <= i < |ts| :: SharedShape(facts, rmt, ts[i..])
  }

  lemma SharedTail(facts: set<string>, rmt: set<string>, ts: seq<Token>, n: nat)
    requires Shared(facts, rmt, ts) && n <= |ts|
    ensures Shared(facts, rmt, ts[n..])
  {
    forall i | 0 <= i < |ts[n..]| ensures SharedShape(facts, rmt, ts[n..][i..]) {
      assert ts[n..][i..] == ts[n + i..];
    }
  }

  lemma FinalPasses(facts: set<string>, ts: seq<Token>)
    requires StartsWithFinal(ts)
    ensures Decorate(facts, ts) == [Kw(FINAL)] + Decorate(facts, ts[1..])
  {
  }

  /** On that common ground the Python rewrite and the TypeScript rewrite are the same function. */
  lemma {:induction false} RewritersAgree(facts: set<string>, rmt: set<string>, ts: seq<Token>)
    requires Shared(facts, rmt, ts)
    ensures InjectFinal(rmt, ts) == Decorate(facts, ts)
    decreases |ts|
  {
    if ts != [] {
      assert ts[0..] == ts && SharedShape(facts, rmt, ts[0..]);
      if ts[0] == Kw(FROM) && TableLength(facts, ts[1..]) == 3 {
        var rest := ts[4..];
        assert ts[1..][3..] == rest && AliasLength(rest) == 0;
        assert MatchLength(facts, ts) == 4 && FromTable(rmt, ts);
        if StartsWithFinal(rest) {
          SharedTail(facts, rmt, ts, 5);
          RewritersAgree(facts, rmt, ts[5..]);
          FinalPasses(facts, rest);
          assert rest[1..] == ts[5..] && ts[..5] == ts[..4] + [Kw(FINAL)];
        } else {
          SharedTail(facts, rmt, ts, 4);
          RewritersAgree(facts, rmt, rest);
        }
      } else {
        SharedTail(facts, rmt, ts, 1);
        RewritersAgree(facts, rmt, ts[1..]);
        assert MatchLength(facts, ts) == 0;
      }
    }
  }

  /** The tables that one of the two rewriters knows and the other does not. */
  const ONE_SIDED: set<string> := {
    "workspace_daily_metrics_legacy", "shopify_analytics_daily", "product_daily_aggregates",
    "workspace_daily_metrics_base"}

  lemma OneSidedExactly(table: string)
    ensures table in ONE_SIDED <==> !(table in FACT_TABLES <==> table in RMT_TABLES)
  {
  }

  /**
   With the tables the two files list: a bare read of brain.table is rewritten alike by both exactly
   when the table is none of four.
   */
  lemma BareReadsAgreeExactly(table: string)
    ensures
      var text := [Kw(FROM), Word("brain"), Dot, Word(table)];
      InjectFinal(RMT_TABLES, text) == Decorate(FACT_TABLES, text) <==> table !in ONE_SIDED
  {
    hide ONE_SIDED, FACT_TABLES, RMT_TABLES;
    OneSidedExactly(table);
    BrainIsNoTable();
    DecoratesBareRead(FACT_TABLES, table);
    InjectsBareRead(RMT_TABLES, table);
  }

  lemma BrainIsNoTable()
    ensures "brain" !in FACT_TABLES
  {
  }

  lemma DecoratesBareRead(facts: set<string>, table: string)
    requires "brain" !in facts
    ensures
      var text := [Kw(FROM), Word("brain"), Dot, Word(table)];
      Decorate(facts, text) == text + if table in facts then [Kw(FINAL)] else []
  {
    var text := [Kw(FROM), Word("brain"), Dot, Word(table)];
    assert text[1..] == [Word("brain"), Dot, Word(table)] && text[4..] == [] && text[..4] == text;
    assert TableLength(facts, text[1..]) == if table in facts then 3 else 0;
    assert MatchLength(facts, text) == if table in facts then 4 else 0;
    DecoratePlain(facts, text[1..]);
  }

  lemma InjectsBareRead(rmt: set<string>, table: string)
    ensures
      var text := [Kw(FROM), Word("brain"), Dot, Word(table)];
      InjectFinal(rmt, text) == text + if table in rmt then [Kw(FINAL)] else []
  {
    var text := [Kw(FROM), Word("brain"), Dot, Word(table)];
    assert text[4..] == [] && text[..4] == text;
    if table !in rmt {
      NoMatchStep(rmt, text);
      Unchanged(rmt, text[1..]);
    }
  }

  lemma {:induction false} DecoratePlain(facts: set<string>, ts: seq<Token>)
    requires Kw(FROM) !in ts && Kw(JOIN) !in ts
    ensures Decorate(facts, ts) == ts
    decreases |ts|
  {
    if ts != [] {
      assert ts[0] in ts && ts == [ts[0]] + ts[1..];
      DecoratePlain(facts, ts[1..]);
    }
  }

  /** A second pass of _inject_final finds nothing to add. */
  lemma {:induction false} InjectFinalIdempotent(rmt: set<string>, ts: seq<Token>)
    ensures InjectFinal(rmt, InjectFinal(rmt, ts)) == InjectFinal(rmt, ts)
    decreases |ts|
  {
    if ts != [] {
      var out := InjectFinal(rmt, ts);
      if FromTable(rmt, ts) && StartsWithFinal(ts[4..]) && Boundary(ts[5..]) {
        InjectFinalIdempotent(rmt, ts[5..]);
        HeadKept(rmt, ts[5..]);
        assert out[5..] == InjectFinal(rmt, ts[5..]) && out[..5] == ts[..5] && out[4..][0] == Kw(FINAL);
        assert FromTable(rmt, out);
      } else if FromTable(rmt, ts) && Boundary(ts[4..]) {
        InjectFinalIdempotent(rmt, ts[4..]);
        HeadKept(rmt, ts[4..]);
        assert out[5..] == InjectFinal(rmt, ts[4..]) && out[..4] == ts[..4] && out[4..][0] == Kw(FINAL);
        assert FromTable(rmt, out) && out[..5] == out[..4] + [Kw(FINAL)];
      } else {
        InjectFinalIdempotent(rmt, ts[1..]);
        assert out[1..] == InjectFinal(rmt, ts[1..]);
        StillNoMatch(rmt, ts);
      }
    }
  }

  /** The first token is never replaced. */
  lemma HeadKept(rmt: set<string>, ts: seq<Token>)
    ensures |InjectFinal(rmt, ts)| >= |ts|
    ensures ts != [] ==> InjectFinal(rmt, ts)[0] == ts[0]
    ensures ts == [] ==> InjectFinal(rmt, ts) == []
    decreases |ts|
  {
    if ts != [] {
      if FromTable(rmt, ts) && StartsWithFinal(ts[4..]) && Boundary(ts[5..]) {
        HeadKept(rmt, ts[5..]);
      } else if FromTable(rmt, ts) && Boundary(ts[4..]) {
        HeadKept(rmt, ts[4..]);
      } else {
        HeadKept(rmt, ts[1..]);
      }
    }
  }

  lemma OneStep(rmt: set<string>, ts: seq<Token>)
    requires ts != [] && ts[0] != Kw(FROM)
    ensures InjectFinal(rmt, ts) == [ts[0]] + InjectFinal(rmt, ts[1..])
  {
  }

  predicate Matches(rmt: set<string>, ts: seq<Token>) {
    FromTable(rmt, ts) && Boundary(ts[4..])
  }

  lemma NoMatchStep(rmt: set<string>, ts: seq<Token>)
    requires ts != [] && !Matches(rmt, ts)
    ensures InjectFinal(rmt, ts) == [ts[0]] + InjectFinal(rmt, ts[1..])
  {
  }

  lemma {:induction false} KeptPrefix(rmt: set<string>, ts: seq<Token>, n: nat)
    requires n <= |ts| && Kw(FROM) !in ts[..n]
    ensures InjectFinal(rmt, ts) == ts[..n] + InjectFinal(rmt, ts[n..])
    decreases n
  {
    hide *;
    if n == 0 {
      assert ts[n..] == ts && ts[..n] + InjectFinal(rmt, ts) == InjectFinal(rmt, ts);
    } else {
      var tail := ts[1..];
      assert ts[..n] == [ts[0]] + tail[..n - 1] && tail[n - 1..] == ts[n..];
      assert Kw(FROM) !in tail[..n - 1] && ts[0] in ts[..n];
      OneStep(rmt, ts);
      KeptPrefix(rmt, tail, n - 1);
      assert [ts[0]] + (tail[..n - 1] + InjectFinal(rmt, ts[n..])) == ts[..n] + InjectFinal(rmt, ts[n..]);
    }
  }

  lemma Unchanged(rmt: set<string>, ts: seq<Token>)
    requires Kw(FROM) !in ts
    ensures InjectFinal(rmt, ts) == ts
  {
    KeptPrefix(rmt, ts, |ts|);
    assert ts[|ts|..] == [] && InjectFinal(rmt, []) == [] && ts[..|ts|] + [] == ts;
  }

  lemma MatchStep(rmt: set<string>, head: seq<Token>, rest: seq<Token>)
    requires |head| == 4 && FromTable(rmt, head) && Boundary(rest)
    ensures !StartsWithFinal(rest) ==> InjectFinal(rmt, head + rest) == head + ([Kw(FINAL)] + InjectFinal(rmt, rest))
    ensures InjectFinal(rmt, head + ([Kw(FINAL)] + rest)) == head + ([Kw(FINAL)] + InjectFinal(rmt, rest))
  {
    var plain, marked := head + rest, head + ([Kw(FINAL)] + rest);
    assert plain[..4] == head && plain[4..] == rest;
    assert marked[..5] == head + [Kw(FINAL)] && marked[4..] == [Kw(FINAL)] + rest && marked[5..] == rest;
  }

  /** Where nothing matched at the head, nothing matches there in the output. */
  lemma StillNoMatch(rmt: set<string>, ts: seq<Token>)
    requires ts != [] && !Matches(rmt, ts)
    ensures
      var out := [ts[0]] + InjectFinal(rmt, ts[1..]);
      InjectFinal(rmt, out) == [ts[0]] + InjectFinal(rmt, out[1..])
  {
    hide InjectFinal;
    var tail := ts[1..];
    var out := [ts[0]] + InjectFinal(rmt, tail);
    assert out[1..] == InjectFinal(rmt, tail);
    if Matches(rmt, out) {
      var n := PlainRun(rmt, tail, out[1..]);
      KeptPrefix(rmt, tail, n);
      assert out[4..] == InjectFinal(rmt, tail[3..]) && tail[3..] == ts[4..];
      HeadKept(rmt, ts[4..]);
      assert false;
    }
    NoMatchStep(rmt, out);
  }

  /** Three output tokens that are no FROM come from the same three input tokens. */
  lemma PlainRun(rmt: set<string>, ts: seq<Token>, out: seq<Token>) returns (n: nat)
    requires out == InjectFinal(rmt, ts) && |out| >= 3
    requires out[0].Word? && out[1].Dot? && out[2].Word?
    ensures n == 3 <= |ts| && ts[..3] == out[..3]
  {
    HeadKept(rmt, ts);
    OneStep(rmt, ts);
    assert out[1..] == InjectFinal(rmt, ts[1..]);
    HeadKept(rmt, ts[1..]);
    OneStep(rmt, ts[1..]);
    assert out[2..] == InjectFinal(rmt, ts[1..][1..]);
    HeadKept(rmt, ts[1..][1..]);
    n := 3;
  }
}
