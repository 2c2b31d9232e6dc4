/**
 decorateWithFinal and _inject_final on token sequences: where FINAL is inserted, and the laws the
 insertion obeys on every token sequence, grammatical or not.
 */
module FinalRewriter {

  /** SQL words with a meaning to the rewriters; a word's letter case is already folded. */
  datatype Keyword =
    | SELECT | FROM | WITH | AS | AND | OR | BY | IN
    | ON | USING | WHERE | GROUP | ORDER | LIMIT | HAVING | PREWHERE | SETTINGS | FORMAT | UNION
    | JOIN | LEFT | RIGHT | INNER | FULL | CROSS | ANY | ALL | SEMI | ANTI | ASOF | GLOBAL | ARRAY | SAMPLE | FINAL

  /** White space between tokens is dropped; `brain.t` is a word, a dot and a word. */
  datatype Token =
    | Kw(k: Keyword)
    | Word(name: string)
    | Dot | LParen | RParen | Comma | Semicolon
    | Param(param: string)
    | Other(text: string)

  /** The words the alias pattern must not take for an alias: every keyword from ON to FINAL. */
  predicate PostTableKeyword(k: Keyword) {
    match k
    case SELECT | FROM | WITH | AS | AND | OR | BY | IN => false
    case _ => true
  }

  const FACT_TABLES: set<string> := {
    "connector_order_facts", "connector_line_item_facts", "connector_product_facts", "connector_variant_facts",
    "connector_ad_spend_facts", "connector_ad_creative_facts", "connector_ad_funnel_facts", "connector_shipment_facts",
    "connector_refund_facts", "connector_logistics_order_facts", "connector_email_send_facts",
    "workspace_daily_metrics_legacy", "shopify_analytics_daily", "product_daily_aggregates"}

  // ----- packages/lib-clickhouse-ts/src/index.ts ------------------------------------------------

  predicate AliasWord(t: Token) {
    t.Word? || (t.Kw? && !t.k.AS? && !PostTableKeyword(t.k))
  }

  /** How many tokens the optional alias after a table takes. */
  function AliasLength(rest: seq<Token>): (n: nat)
    ensures n <= |rest|
  {
    if |rest| >= 2 && rest[0] == Kw(AS) && AliasWord(rest[1]) then 2
    else if |rest| >= 1 && AliasWord(rest[0]) then 1
    else 0
  }

  /** How many tokens [brain.]table takes when the table is one of facts; 0 when it is not there. */
  function TableLength(facts: set<string>, rest: seq<Token>): (n: nat)
    ensures n <= |rest| && n in {0, 1, 3}
  {
    if |rest| >= 3 && rest[0] == Word("brain") && rest[1] == Dot && rest[2].Word? && rest[2].name in facts then 3
    else if |rest| >= 1 && rest[0].Word? && rest[0].name in facts then 1
    else 0
  }

  /** The length of a match of the table reference pattern at the head; 0 when there is none. */
  function MatchLength(facts: set<string>, ts: seq<Token>): (n: nat)
    ensures n <= |ts| && n != 1
  {
    if ts == [] || !(ts[0] == Kw(FROM) || ts[0] == Kw(JOIN)) then 0
    else
      var table := TableLength(facts, ts[1..]);
      if table == 0 then 0 else 1 + table + AliasLength(ts[1 + table..])
  }

  predicate StartsWithFinal(ts: seq<Token>) { ts != [] && ts[0] == Kw(FINAL) }

  /** What follows a match in the output: FINAL, unless it is already there. */
  function Missing(rest: seq<Token>): seq<Token> {
    if StartsWithFinal(rest) then [] else [Kw(FINAL)]
  }

  function Mark(final: bool): seq<Token> { if final then [Kw(FINAL)] else [] }

  /** decorateWithFinal: every match not already followed by FINAL gets one appended. */
  function Decorate(facts: set<string>, ts: seq<Token>): seq<Token>
    decreases |ts|
  {
    if ts == [] then []
    else
      var n := MatchLength(facts, ts);
      if n == 0 then [ts[0]] + Decorate(facts, ts[1..])
      else ts[..n] + (Missing(ts[n..]) + Decorate(facts, ts[n..]))
  }

  // ----- laws -----------------------------------------------------------------------------------

  /** Scanning as the rewriter scans, every match is followed by FINAL. */
  predicate AllFinal(facts: set<string>, ts: seq<Token>)
    decreases |ts|
  {
    ts == [] ||
    var n := MatchLength(facts, ts);
    if n == 0 then AllFinal(facts, ts[1..]) else StartsWithFinal(ts[n..]) && AllFinal(facts, ts[n..])
  }

  function Unmark(n: nat): seq<bool> { seq(n, _ => false) }

  /** Which tokens of the output were inserted. */
  function Marks(facts: set<string>, ts: seq<Token>): seq<bool>
    decreases |ts|
  {
    if ts == [] then []
    else
      var n := MatchLength(facts, ts);
      if n == 0 then [false] + Marks(facts, ts[1..])
      else Unmark(n) + (seq(|Missing(ts[n..])|, _ => true) + Marks(facts, ts[n..]))
  }

  /** The unmarked tokens, in order. */
  function Unmarked(ts: seq<Token>, marks: seq<bool>): seq<Token>
    requires |ts| == |marks|
  {
    if ts == [] then [] else (if marks[0] then [] else [ts[0]]) + Unmarked(ts[1..], marks[1..])
  }

  /** A match sees only its own tokens and that no alias follows; FINAL is never one. */
  lemma MatchIsLocal(facts: set<string>, ts: seq<Token>, rest: seq<Token>)
    requires MatchLength(facts, ts) > 0
    requires StartsWithFinal(rest)
    ensures MatchLength(facts, ts[..MatchLength(facts, ts)] + rest) == MatchLength(facts, ts)
  {
    var n := MatchLength(facts, ts);
    var out := ts[..n] + rest;
    var table := TableLength(facts, ts[1..]);
    assert out[0] == ts[0] && |out| >= n + 1;
    assert forall i | 0 <= i < n :: out[i] == ts[i];
    var alias := n - 1 - table;
    assert out[n] == rest[0] && out[1 + table..][alias] == out[n];
    var a, b := ts[1 + table..], out[1 + table..];
    assert forall i | 0 <= i < alias :: b[i] == a[i];
    assert b[..alias] == a[..alias] && out[1..][..table] == ts[1..][..table];
    TableIsLocal(facts, ts[1..], out[1..]);
    AliasIsLocal(ts[1 + table..], out[1 + table..]);
  }

  lemma TableIsLocal(facts: set<string>, a: seq<Token>, b: seq<Token>)
    requires TableLength(facts, a) > 0 && |b| >= TableLength(facts, a)
    requires a[..TableLength(facts, a)] == b[..TableLength(facts, a)]
    requires |b| == TableLength(facts, a) || b[TableLength(facts, a)] != Dot
    ensures TableLength(facts, b) == TableLength(facts, a)
  {
    var n := TableLength(facts, a);
    assert forall i | 0 <= i < n :: a[..n][i] == b[..n][i];
  }

  lemma AliasIsLocal(a: seq<Token>, b: seq<Token>)
    requires |b| > AliasLength(a) && a[..AliasLength(a)] == b[..AliasLength(a)]
    requires b[AliasLength(a)] == Kw(FINAL)
    ensures AliasLength(b) == AliasLength(a)
  {
    var n := AliasLength(a);
    assert forall i | 0 <= i < n :: a[..n][i] == b[..n][i];
  }

  lemma DecorateKeepsFinalFirst(facts: set<string>, ts: seq<Token>)
    requires StartsWithFinal(ts)
    ensures StartsWithFinal(Decorate(facts, ts))
  {
  }

  /** In the output every match is followed by the FINAL it needs. */
  lemma {:induction false} DecorateCompletes(facts: set<string>, ts: seq<Token>)
    ensures AllFinal(facts, Decorate(facts, ts))
    decreases |ts|
  {
    hide TableLength, AliasLength;
    if ts != [] {
      var n := MatchLength(facts, ts);
      var out := Decorate(facts, ts);
      if n == 0 {
        DecorateCompletes(facts, ts[1..]);
        assert out[1..] == Decorate(facts, ts[1..]);
        NoNewMatch(facts, ts);
      } else {
        DecorateCompletes(facts, ts[n..]);
        var tail := Decorate(facts, ts[n..]);
        var rest := Missing(ts[n..]) + tail;
        assert out == ts[..n] + rest;
        if StartsWithFinal(ts[n..]) { DecorateKeepsFinalFirst(facts, ts[n..]); }
        MatchIsLocal(facts, ts, rest);
        assert out[n..] == rest;
        assert rest != tail ==> rest[1..] == tail && MatchLength(facts, rest) == 0;
      }
    }
  }

  /** Decorating the tail cannot create a match at the head. */
  lemma NoNewMatch(facts: set<string>, ts: seq<Token>)
    requires ts != [] && MatchLength(facts, ts) == 0
    ensures MatchLength(facts, [ts[0]] + Decorate(facts, ts[1..])) == 0
  {
    if ts[0] == Kw(FROM) || ts[0] == Kw(JOIN) {
      var tail := ts[1..];
      SameFirstWords(facts, tail);
      assert ([ts[0]] + Decorate(facts, tail))[1..] == Decorate(facts, tail);
    }
  }

  /** Up to a table's worth of words, the output reads like the input. */
  lemma SameFirstWords(facts: set<string>, ts: seq<Token>)
    ensures TableLength(facts, ts) == 0 ==> TableLength(facts, Decorate(facts, ts)) == 0
  {
    var out := Decorate(facts, ts);
    if ts != [] && ts[0].Word? {
      assert out == [ts[0]] + Decorate(facts, ts[1..]);
      if |ts| >= 2 && ts[1] == Dot {
        assert out[1..] == [Dot] + Decorate(facts, ts[2..]);
        if |ts| >= 3 && ts[2].Word? {
          assert out[2..] == [ts[2]] + Decorate(facts, ts[3..]);
        }
      }
    }
  }

  /** Where nothing is missing, nothing is inserted. */
  lemma {:induction false} CompleteIsFixed(facts: set<string>, ts: seq<Token>)
    ensures AllFinal(facts, ts) <==> Decorate(facts, ts) == ts
    decreases |ts|
  {
    hide MatchLength;
    if ts != [] {
      var n := MatchLength(facts, ts);
      var out := Decorate(facts, ts);
      if n == 0 {
        CompleteIsFixed(facts, ts[1..]);
        assert ts == [ts[0]] + ts[1..];
        assert out[1..] == Decorate(facts, ts[1..]);
      } else {
        var rest := ts[n..];
        CompleteIsFixed(facts, rest);
        assert ts == ts[..n] + rest;
        assert out[n..] == Missing(rest) + Decorate(facts, rest);
        if StartsWithFinal(rest) {
          assert Missing(rest) + Decorate(facts, rest) == Decorate(facts, rest);
        } else {
          assert StartsWithFinal(out[n..]) && ts[n..] == rest;
        }
      }
    }
  }

  /** decorateWithFinal is idempotent on every token sequence. */
  lemma DecorateIdempotent(facts: set<string>, ts: seq<Token>)
    ensures Decorate(facts, Decorate(facts, ts)) == Decorate(facts, ts)
  {
    DecorateCompletes(facts, ts);
    CompleteIsFixed(facts, Decorate(facts, ts));
  }

  lemma {:induction false} UnmarkedConcat(a: seq<Token>, am: seq<bool>, b: seq<Token>, bm: seq<bool>)
    requires |a| == |am| && |b| == |bm|
    ensures Unmarked(a + b, am + bm) == Unmarked(a, am) + Unmarked(b, bm)
    decreases |a|
  {
    if a == [] {
      assert a + b == b && am + bm == bm;
    } else {
      assert (a + b)[1..] == a[1..] + b && (am + bm)[1..] == am[1..] + bm;
      UnmarkedConcat(a[1..], am[1..], b, bm);
    }
  }

  lemma {:induction false} UnmarkedAll(ts: seq<Token>)
    ensures Unmarked(ts, Unmark(|ts|)) == ts
    decreases |ts|
  {
    if ts != [] {
      assert Unmark(|ts|)[1..] == Unmark(|ts[1..]|);
      UnmarkedAll(ts[1..]);
    }
  }

  lemma UnmarkedGlue(glue: seq<Token>, tail: seq<Token>, marks: seq<bool>)
    requires |tail| == |marks| && |glue| <= 1
    ensures Unmarked(glue + tail, seq(|glue|, _ => true) + marks) == Unmarked(tail, marks)
  {
    UnmarkedConcat(glue, seq(|glue|, _ => true), tail, marks);
  }

  /** Only FINALs are inserted, and deleting exactly those restores the input. */
  lemma {:induction false} ErasureRestores(facts: set<string>, ts: seq<Token>)
    ensures |Marks(facts, ts)| == |Decorate(facts, ts)|
    ensures forall i | 0 <= i < |Marks(facts, ts)| :: Marks(facts, ts)[i] ==> Decorate(facts, ts)[i] == Kw(FINAL)
    ensures Unmarked(Decorate(facts, ts), Marks(facts, ts)) == ts
    decreases |ts|
  {
    hide MatchLength, Unmarked;
    if ts == [] {
      UnmarkedAll([]);
      assert Unmark(0) == [];
    } else {
      var n := MatchLength(facts, ts);
      if n == 0 {
        ErasureRestores(facts, ts[1..]);
        UnmarkedConcat([ts[0]], [false], Decorate(facts, ts[1..]), Marks(facts, ts[1..]));
        UnmarkedAll([ts[0]]);
        assert Unmark(1) == [false];
      } else {
        var rest := ts[n..];
        ErasureRestores(facts, rest);
        var tail, marks, glue := Decorate(facts, rest), Marks(facts, rest), Missing(rest);
        UnmarkedGlue(glue, tail, marks);
        UnmarkedAll(ts[..n]);
        UnmarkedConcat(ts[..n], Unmark(n), glue + tail, seq(|glue|, _ => true) + marks);
        assert ts == ts[..n] + rest;
      }
    }
  }
}
