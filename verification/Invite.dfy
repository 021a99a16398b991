/** internal/invite/store.go: one-time invite tokens, with expired ones pruned
    whenever the file is rewritten anyway. */
module Invite {
  import opened Base

  datatype Grant = Unset | Profile | Vless | Both

  datatype Token = Token(
    value: string, clientName: string, grant: Grant,
    used: bool, usedBy: string, created: int, usedAt: int)

  datatype StoreError = NameRequired | NotFound | SaveFailed

  datatype Reply = Given(token: Token) | Refused(error: StoreError)

  /** A token lives strictly less than `ttl`, and forever if `ttl` is not positive. */
  predicate Expired(created: int, ttl: int, now: int) {
    ttl > 0 && created + ttl <= now
  }

  /** Expired and never redeemed. */
  predicate Dead(t: Token, ttl: int, now: int) {
    !t.used && Expired(t.created, ttl, now)
  }

  function Pruned(tokens: seq<Token>, ttl: int, now: int): seq<Token> {
    if tokens == [] then []
    else (if Dead(tokens[0], ttl, now) then [] else [tokens[0]]) + Pruned(tokens[1..], ttl, now)
  }

  lemma PrunedNext(kept: seq<Token>, all: seq<Token>, i: nat, ttl: int, now: int)
    requires i < |all|
    ensures kept + Pruned(all[i..], ttl, now) ==
      (if Dead(all[i], ttl, now) then kept else kept + [all[i]]) + Pruned(all[i + 1..], ttl, now)
  {
    var tail := Pruned(all[i + 1..], ttl, now);
    assert all[i..][1..] == all[i + 1..];
    assert kept + ([all[i]] + tail) == (kept + [all[i]]) + tail;
    assert [] + tail == tail;
  }

  lemma {:induction false} NothingExpires(tokens: seq<Token>, ttl: int, now: int)
    requires ttl <= 0
    ensures Pruned(tokens, ttl, now) == tokens
  {
    if tokens != [] {
      NothingExpires(tokens[1..], ttl, now);
    }
  }

  /** Pruning rewrites the slice in place: the kept tokens are compacted to the
      front of the very array being read. */
  method PruneExpired(tokens: array<Token>, ttl: int, now: int) returns (n: nat)
    modifies tokens
    ensures n <= tokens.Length && tokens[..n] == Pruned(old(tokens[..]), ttl, now)
  {
    if ttl <= 0 {
      NothingExpires(tokens[..], ttl, now);
      assert tokens[..tokens.Length] == tokens[..];
      return tokens.Length;
    }
    n := 0;
    ghost var all := tokens[..];
    for i := 0 to tokens.Length
      invariant n <= i
      invariant forall j :: i <= j < tokens.Length ==> tokens[j] == all[j]
      invariant Pruned(all, ttl, now) == tokens[..n] + Pruned(all[i..], ttl, now)
    {
      ghost var kept := tokens[..n];
      PrunedNext(kept, all, i, ttl, now);
      if !Dead(tokens[i], ttl, now) {
        tokens[n] := tokens[i];
        n := n + 1;
        assert tokens[..n] == kept + [all[i]];
      }
    }
  }

  /** The used tokens, in order. */
  function Used(tokens: seq<Token>): seq<Token> {
    if tokens == [] then [] else (if tokens[0].used then [tokens[0]] else []) + Used(tokens[1..])
  }

  lemma UsedConcat(a: seq<Token>, b: seq<Token>)
    requires |a| <= 1
    ensures Used(a + b) == Used(a) + Used(b)
  {
    if a == [] {
      assert a + b == b;
    } else {
      assert (a + b)[1..] == b;
      assert Used(a) == if a[0].used then [a[0]] else [];
    }
  }

  /** Pruning keeps, in order, exactly the tokens that are used or not expired;
      the audit trail of used tokens in particular survives whole. */
  lemma {:induction false} PrunedMeaning(tokens: seq<Token>, ttl: int, now: int)
    ensures forall t :: t in Pruned(tokens, ttl, now) <==> t in tokens && !Dead(t, ttl, now)
    ensures Used(Pruned(tokens, ttl, now)) == Used(tokens)
  {
    if tokens != [] {
      PrunedMeaning(tokens[1..], ttl, now);
      assert tokens == [tokens[0]] + tokens[1..];
      UsedConcat(if Dead(tokens[0], ttl, now) then [] else [tokens[0]], Pruned(tokens[1..], ttl, now));
    }
  }

  predicate Matches(t: Token, value: string, ttl: int, now: int) {
    !t.used && !Expired(t.created, ttl, now) && t.value == value
  }

  function Spent(t: Token, usedBy: string, now: int): Token {
    t.(used := true, usedBy := usedBy, usedAt := now)
  }

  /** The store after marking the first match used, and that token. */
  function Redeemed(tokens: seq<Token>, ttl: int, value: string, usedBy: string, now: int)
    : (seq<Token>, Option<Token>)
  {
    if tokens == [] then ([], None)
    else if Matches(tokens[0], value, ttl, now) then
      ([Spent(tokens[0], usedBy, now)] + tokens[1..], Some(Spent(tokens[0], usedBy, now)))
    else
      var (rest, hit) := Redeemed(tokens[1..], ttl, value, usedBy, now);
      ([tokens[0]] + rest, hit)
  }

  lemma RedeemedNext(tokens: seq<Token>, i: nat, ttl: int, value: string, usedBy: string, now: int)
    requires i < |tokens|
    ensures var (rest, hit) := Redeemed(tokens[i..], ttl, value, usedBy, now);
      if Matches(tokens[i], value, ttl, now) then
        && tokens[..i] + rest == tokens[i := Spent(tokens[i], usedBy, now)]
        && hit == Some(Spent(tokens[i], usedBy, now))
      else
        var (rest', hit') := Redeemed(tokens[i + 1..], ttl, value, usedBy, now);
        tokens[..i] + rest == tokens[..i + 1] + rest' && hit == hit'
  {
    assert tokens[i..][0] == tokens[i] && tokens[i..][1..] == tokens[i + 1..];
    if !Matches(tokens[i], value, ttl, now) {
      Assoc(tokens[..i], [tokens[i]], Redeemed(tokens[i + 1..], ttl, value, usedBy, now).0);
      assert tokens[..i] + [tokens[i]] == tokens[..i + 1];
    }
  }

  /** One call on the store; `saves` says whether the file could be rewritten. */
  datatype Event =
    | Generate(clientName: string, grant: Grant, value: string, now: int, saves: bool)
    | Redeem(value: string, usedBy: string, now: int, saves: bool)

  function Minted(e: Event): Token
    requires e.Generate?
  {
    Token(e.value, e.clientName, if e.grant.Unset? then Profile else e.grant, false, "", e.now, 0)
  }

  /** `prunes` distinguishes the real store from one that never prunes. */
  function Step(tokens: seq<Token>, ttl: int, e: Event, prunes: bool): (seq<Token>, Reply) {
    match e
    case Generate(name, grant, value, now, saves) =>
      if name == "" then (tokens, Refused(NameRequired))
      else if !saves then (tokens, Refused(SaveFailed))
      else ((if prunes then Pruned(tokens, ttl, now) else tokens) + [Minted(e)], Given(Minted(e)))
    case Redeem(value, usedBy, now, saves) =>
      if value == "" then (tokens, Refused(NotFound))
      else
        var (tokens', hit) := Redeemed(tokens, ttl, value, usedBy, now);
        if hit.None? then (tokens, Refused(NotFound))
        else if !saves then (tokens, Refused(SaveFailed))
        else (tokens', Given(hit.value.(value := "")))
  }

  class Store {
    const ttl: int
    var tokens: seq<Token>

    constructor (ttl: int)
      ensures this.ttl == ttl && tokens == []
    {
      this.ttl, tokens := ttl, [];
    }

    method GenerateToken(clientName: string, grant: Grant, value: string, now: int, saves: bool) returns (r: Reply)
      modifies this
      ensures (tokens, r) == Step(old(tokens), ttl, Generate(clientName, grant, value, now, saves), true)
      ensures r == if clientName == "" then Refused(NameRequired) else if !saves then Refused(SaveFailed)
                   else Given(Token(value, clientName, if grant == Unset then Profile else grant, false, "", now, 0))
    {
      if clientName == "" {
        return Refused(NameRequired);
      }
      var g := if grant.Unset? then Profile else grant;
      var loaded := new Token[|tokens|](i requires 0 <= i < |tokens| reads this => tokens[i]);
      assert loaded[..] == tokens;
      var n := PruneExpired(loaded, ttl, now);
      var tok := Token(value, clientName, g, false, "", now, 0);
      if !saves {
        return Refused(SaveFailed);
      }
      tokens := loaded[..n] + [tok];
      return Given(tok);
    }

    method RedeemToken(value: string, usedBy: string, now: int, saves: bool) returns (r: Reply)
      modifies this
      ensures (tokens, r) == Step(old(tokens), ttl, Redeem(value, usedBy, now, saves), true)
    {
      if value == "" {
        return Refused(NotFound);
      }
      assert tokens[0..] == tokens;
      for i := 0 to |tokens|
        invariant tokens == old(tokens)
        invariant var (rest, hit) := Redeemed(tokens[i..], ttl, value, usedBy, now);
          var all := Redeemed(tokens, ttl, value, usedBy, now);
          all.0 == tokens[..i] + rest && all.1 == hit
      {
        RedeemedNext(tokens, i, ttl, value, usedBy, now);
        if !tokens[i].used && !Expired(tokens[i].created, ttl, now) && tokens[i].value == value {
          var spent := Spent(tokens[i], usedBy, now);
          if !saves {
            return Refused(SaveFailed);
          }
          tokens := tokens[i := spent];
          return Given(spent.(value := ""));
        }
      }
      return Refused(NotFound);
    }
  }

  // ------------------------------------------------------------------ runs

  function Run(tokens: seq<Token>, ttl: int, es: seq<Event>, prunes: bool): (seq<Token>, seq<Reply>)
    decreases |es|
  {
    if es == [] then (tokens, [])
    else
      var (tokens1, r) := Step(tokens, ttl, es[0], prunes);
      var (tokens2, rs) := Run(tokens1, ttl, es[1..], prunes);
      (tokens2, [r] + rs)
  }

  /** No value is minted twice over the run. */
  predicate DistinctValues(es: seq<Event>) {
    forall i, j :: 0 <= i < j < |es| && es[i].Generate? && es[j].Generate? ==> es[i].value != es[j].value
  }

  ghost predicate ValuesDistinct(tokens: seq<Token>) {
    forall i, j :: 0 <= i < j < |tokens| ==> tokens[i].value != tokens[j].value
  }

  predicate Gives(es: seq<Event>, rs: seq<Reply>, k: nat) {
    k < |es| && k < |rs| && es[k].Redeem? && rs[k].Given?
  }

  lemma {:induction false} RedeemedMeaning(tokens: seq<Token>, ttl: int, value: string, usedBy: string, now: int)
    requires ValuesDistinct(tokens)
    ensures var (tokens', hit) := Redeemed(tokens, ttl, value, usedBy, now);
      && |tokens'| == |tokens|
      && (hit.Some? <==> exists i :: 0 <= i < |tokens| && Matches(tokens[i], value, ttl, now))
      && (forall i :: 0 <= i < |tokens| ==>
            tokens'[i] == if Matches(tokens[i], value, ttl, now) then Spent(tokens[i], usedBy, now) else tokens[i])
      && (hit.Some? ==> hit.value in tokens' && hit.value.value == value && hit.value.used
                        && !Expired(hit.value.created, ttl, now))
  {
    if tokens != [] {
      var rest := tokens[1..];
      RedeemedMeaning(rest, ttl, value, usedBy, now);
      var (tokens', hit) := Redeemed(tokens, ttl, value, usedBy, now);
      if Matches(tokens[0], value, ttl, now) {
        assert forall i :: 1 <= i < |tokens| ==> tokens[i].value != value;
      } else {
        assert forall i :: 1 <= i < |tokens| ==> tokens[i] == rest[i - 1];
        assert tokens'[1..] == Redeemed(rest, ttl, value, usedBy, now).0;
        if hit.Some? {
          assert hit.value in tokens'[1..];
        }
      }
    }
  }

  lemma {:induction false} PrunedKeepsDistinct(tokens: seq<Token>, ttl: int, now: int)
    requires ValuesDistinct(tokens)
    ensures ValuesDistinct(Pruned(tokens, ttl, now))
  {
    if tokens != [] {
      var rest := Pruned(tokens[1..], ttl, now);
      PrunedKeepsDistinct(tokens[1..], ttl, now);
      PrunedMeaning(tokens[1..], ttl, now);
      forall i | 0 <= i < |rest| ensures rest[i].value != tokens[0].value {
        assert rest[i] in tokens[1..];
      }
    }
  }

  /** The values still to be minted are none of those in the store. */
  ghost predicate FreshAhead(tokens: seq<Token>, es: seq<Event>) {
    && ValuesDistinct(tokens) && DistinctValues(es)
    && forall t, j :: t in tokens && 0 <= j < |es| && es[j].Generate? ==> es[j].value != t.value
  }

  lemma TailOfEvents(es: seq<Event>)
    requires es != []
    ensures DistinctValues(es) ==> DistinctValues(es[1..])
    ensures forall j :: 0 <= j < |es[1..]| ==> es[1..][j] == es[j + 1]
  {
  }

  /** Redeeming changes no value. */
  lemma RedeemedValues(tokens: seq<Token>, ttl: int, value: string, usedBy: string, now: int)
    requires ValuesDistinct(tokens)
    ensures var tokens' := Redeemed(tokens, ttl, value, usedBy, now).0;
      |tokens'| == |tokens| && forall i :: 0 <= i < |tokens| ==> tokens'[i].value == tokens[i].value
  {
    RedeemedMeaning(tokens, ttl, value, usedBy, now);
  }

  lemma GenerateKeepsFresh(tokens: seq<Token>, ttl: int, es: seq<Event>, prunes: bool)
    requires es != [] && es[0].Generate? && FreshAhead(tokens, es)
    ensures FreshAhead(Step(tokens, ttl, es[0], prunes).0, es[1..])
  {
    TailOfEvents(es);
    PrunedKeepsDistinct(tokens, ttl, es[0].now);
    PrunedMeaning(tokens, ttl, es[0].now);
  }

  lemma RedeemKeepsFresh(tokens: seq<Token>, ttl: int, es: seq<Event>, prunes: bool)
    requires es != [] && es[0].Redeem? && FreshAhead(tokens, es)
    ensures FreshAhead(Step(tokens, ttl, es[0], prunes).0, es[1..])
  {
    TailOfEvents(es);
    RedeemedValues(tokens, ttl, es[0].value, es[0].usedBy, es[0].now);
    var tokens1 := Step(tokens, ttl, es[0], prunes).0;
    assert |tokens1| == |tokens| && forall i :: 0 <= i < |tokens| ==> tokens1[i].value == tokens[i].value;
    forall t | t in tokens1 ensures exists o :: o in tokens && o.value == t.value {
      var i :| 0 <= i < |tokens1| && tokens1[i] == t;
      assert tokens[i] in tokens;
    }
  }

  /** Fresh values stay fresh over a step, pruning or not. */
  lemma StepKeepsFresh(tokens: seq<Token>, ttl: int, es: seq<Event>, prunes: bool)
    requires es != [] && FreshAhead(tokens, es)
    ensures FreshAhead(Step(tokens, ttl, es[0], prunes).0, es[1..])
  {
    if es[0].Generate? {
      GenerateKeepsFresh(tokens, ttl, es, prunes);
    } else {
      RedeemKeepsFresh(tokens, ttl, es, prunes);
    }
  }

  /** Every token of this value is used, and none will be minted. */
  ghost predicate UsedUp(tokens: seq<Token>, es: seq<Event>, value: string) {
    && (forall t :: t in tokens && t.value == value ==> t.used)
    && forall j :: 0 <= j < |es| && es[j].Generate? ==> es[j].value != value
  }

  lemma StepKeepsUsedUp(tokens: seq<Token>, ttl: int, es: seq<Event>, prunes: bool, value: string)
    requires es != [] && FreshAhead(tokens, es) && UsedUp(tokens, es, value)
    ensures UsedUp(Step(tokens, ttl, es[0], prunes).0, es[1..], value)
    ensures es[0].Redeem? && es[0].value == value ==> Step(tokens, ttl, es[0], prunes).1 == Refused(NotFound)
  {
    assert forall j :: 0 <= j < |es[1..]| ==> es[1..][j] == es[j + 1];
    match es[0]
    case Generate(_, _, _, now, _) => PrunedMeaning(tokens, ttl, now);
    case Redeem(v, usedBy, now, _) => RedeemedMeaning(tokens, ttl, v, usedBy, now);
  }

  /** What has been given is used up. */
  lemma GivingUsesUp(tokens: seq<Token>, ttl: int, es: seq<Event>, prunes: bool)
    requires es != [] && FreshAhead(tokens, es) && es[0].Redeem? && Step(tokens, ttl, es[0], prunes).1.Given?
    ensures UsedUp(Step(tokens, ttl, es[0], prunes).0, es[1..], es[0].value)
  {
    assert forall j :: 0 <= j < |es[1..]| ==> es[1..][j] == es[j + 1];
    RedeemedMeaning(tokens, ttl, es[0].value, es[0].usedBy, es[0].now);
    var tokens1 := Step(tokens, ttl, es[0], prunes).0;
    var i :| 0 <= i < |tokens| && Matches(tokens[i], es[0].value, ttl, es[0].now);
    assert tokens[i] in tokens && tokens1[i].used && tokens1[i].value == es[0].value;
  }

  lemma {:induction false} NeverAgain(tokens: seq<Token>, ttl: int, es: seq<Event>, prunes: bool, value: string, k: nat)
    requires FreshAhead(tokens, es) && UsedUp(tokens, es, value)
    requires k < |es| && es[k].Redeem? && es[k].value == value
    ensures k < |Run(tokens, ttl, es, prunes).1| && Run(tokens, ttl, es, prunes).1[k] == Refused(NotFound)
    decreases |es|
  {
    StepKeepsUsedUp(tokens, ttl, es, prunes, value);
    if k > 0 {
      StepKeepsFresh(tokens, ttl, es, prunes);
      NeverAgain(Step(tokens, ttl, es[0], prunes).0, ttl, es[1..], prunes, value, k - 1);
    }
  }

  /** From any store whose values are distinct and stay so: no value is given
      twice, whatever the clock does. */
  lemma {:induction false} GivenOnce(tokens: seq<Token>, ttl: int, es: seq<Event>, prunes: bool, i: nat, j: nat)
    requires FreshAhead(tokens, es)
    requires i < j && Gives(es, Run(tokens, ttl, es, prunes).1, i) && Gives(es, Run(tokens, ttl, es, prunes).1, j)
    ensures es[i].value != es[j].value
    decreases |es|
  {
    var tokens1 := Step(tokens, ttl, es[0], prunes).0;
    StepKeepsFresh(tokens, ttl, es, prunes);
    if i > 0 {
      GivenOnce(tokens1, ttl, es[1..], prunes, i - 1, j - 1);
    } else if es[0].value == es[j].value {
      GivingUsesUp(tokens, ttl, es, prunes);
      NeverAgain(tokens1, ttl, es[1..], prunes, es[0].value, j - 1);
    }
  }

  /** With distinct values, the store gives each token at most once over any run,
      even if the clock steps back. */
  lemma SingleUse(ttl: int, es: seq<Event>, i: nat, j: nat)
    requires DistinctValues(es)
    requires i < j && Gives(es, Run([], ttl, es, true).1, i) && Gives(es, Run([], ttl, es, true).1, j)
    ensures es[i].value != es[j].value
  {
    GivenOnce([], ttl, es, true, i, j);
  }

  // -------------------------------------------------- what pruning may drop

  /** A later redeem asks for the token at a time when it has not expired. */
  predicate Wanted(t: Token, ttl: int, es: seq<Event>) {
    exists k :: 0 <= k < |es| && es[k].Redeem? && es[k].value == t.value != "" && !Expired(t.created, ttl, es[k].now)
  }

  /** What the first call prunes is never wanted again. */
  predicate PrunesUnwanted(tokens: seq<Token>, ttl: int, es: seq<Event>)
    requires es != []
  {
    es[0].Generate? && Step(tokens, ttl, es[0], true).1.Given? ==>
      forall t :: t in tokens && Dead(t, ttl, es[0].now) ==> !Wanted(t, ttl, es[1..])
  }

  /** Over the whole run, no token is pruned that a later redeem asks for at a time
      when it has not expired. */
  predicate DropsNothingWanted(tokens: seq<Token>, ttl: int, es: seq<Event>)
    decreases |es|
  {
    es == [] ||
    (PrunesUnwanted(tokens, ttl, es) && DropsNothingWanted(Step(tokens, ttl, es[0], true).0, ttl, es[1..]))
  }

  /** `p` is `u` less some unused tokens that nothing in `es` will want. */
  ghost predicate PrunedFrom(p: seq<Token>, u: seq<Token>, ttl: int, es: seq<Event>) {
    if u == [] then p == []
    else
      || (p != [] && p[0] == u[0] && PrunedFrom(p[1..], u[1..], ttl, es))
      || (!u[0].used && !Wanted(u[0], ttl, es) && PrunedFrom(p, u[1..], ttl, es))
  }

  lemma WantedBefore(t: Token, ttl: int, es: seq<Event>)
    requires es != [] && Wanted(t, ttl, es[1..])
    ensures Wanted(t, ttl, es)
  {
    var k :| 0 <= k < |es[1..]| && es[1..][k].Redeem? && es[1..][k].value == t.value
             && !Expired(t.created, ttl, es[1..][k].now);
    assert es[k + 1].Redeem?;
  }

  lemma {:induction false} PrunedLater(p: seq<Token>, u: seq<Token>, ttl: int, es: seq<Event>)
    requires es != [] && PrunedFrom(p, u, ttl, es)
    ensures PrunedFrom(p, u, ttl, es[1..])
    decreases |u|
  {
    if u != [] {
      if p != [] && p[0] == u[0] && PrunedFrom(p[1..], u[1..], ttl, es) {
        PrunedLater(p[1..], u[1..], ttl, es);
      } else {
        PrunedLater(p, u[1..], ttl, es);
        if Wanted(u[0], ttl, es[1..]) {
          WantedBefore(u[0], ttl, es);
        }
      }
    }
  }

  lemma {:induction false} PruneMore(p: seq<Token>, u: seq<Token>, ttl: int, now: int, es: seq<Event>)
    requires PrunedFrom(p, u, ttl, es)
    requires forall t :: t in p && Dead(t, ttl, now) ==> !Wanted(t, ttl, es)
    ensures PrunedFrom(Pruned(p, ttl, now), u, ttl, es)
    decreases |u|
  {
    if u != [] {
      if p != [] && p[0] == u[0] && PrunedFrom(p[1..], u[1..], ttl, es) {
        PruneMore(p[1..], u[1..], ttl, now, es);
        if Dead(p[0], ttl, now) {
          assert Pruned(p, ttl, now) == Pruned(p[1..], ttl, now);
        } else {
          assert Pruned(p, ttl, now)[1..] == Pruned(p[1..], ttl, now);
        }
      } else {
        PruneMore(p, u[1..], ttl, now, es);
      }
    }
  }

  lemma {:induction false} PrunedAppend(p: seq<Token>, u: seq<Token>, ttl: int, es: seq<Event>, tok: Token)
    requires PrunedFrom(p, u, ttl, es)
    ensures PrunedFrom(p + [tok], u + [tok], ttl, es)
    decreases |u|
  {
    if u == [] {
      assert (u + [tok])[1..] == [] && (p + [tok])[1..] == [];
    } else {
      assert (u + [tok])[1..] == u[1..] + [tok];
      if p != [] && p[0] == u[0] && PrunedFrom(p[1..], u[1..], ttl, es) {
        PrunedAppend(p[1..], u[1..], ttl, es, tok);
        assert (p + [tok])[1..] == p[1..] + [tok];
      } else {
        PrunedAppend(p, u[1..], ttl, es, tok);
      }
    }
  }

  /** What is not wanted does not match, so both stores redeem the same token. */
  lemma {:induction false} RedeemAgrees(p: seq<Token>, u: seq<Token>, ttl: int, es: seq<Event>)
    requires es != [] && es[0].Redeem? && es[0].value != "" && PrunedFrom(p, u, ttl, es)
    ensures var (p', hitP) := Redeemed(p, ttl, es[0].value, es[0].usedBy, es[0].now);
      var (u', hitU) := Redeemed(u, ttl, es[0].value, es[0].usedBy, es[0].now);
      hitP == hitU && PrunedFrom(p', u', ttl, es[1..])
    decreases |u|
  {
    if u != [] {
      var (u', _) := Redeemed(u, ttl, es[0].value, es[0].usedBy, es[0].now);
      var (p', _) := Redeemed(p, ttl, es[0].value, es[0].usedBy, es[0].now);
      if p != [] && p[0] == u[0] && PrunedFrom(p[1..], u[1..], ttl, es) {
        RedeemAgrees(p[1..], u[1..], ttl, es);
        if Matches(u[0], es[0].value, ttl, es[0].now) {
          PrunedLater(p[1..], u[1..], ttl, es);
          assert u'[1..] == u[1..] && p'[1..] == p[1..];
        } else {
          assert u'[1..] == Redeemed(u[1..], ttl, es[0].value, es[0].usedBy, es[0].now).0;
          assert p'[1..] == Redeemed(p[1..], ttl, es[0].value, es[0].usedBy, es[0].now).0;
        }
      } else {
        RedeemAgrees(p, u[1..], ttl, es);
        if Wanted(u[0], ttl, es[1..]) {
          WantedBefore(u[0], ttl, es);
        }
        assert u'[1..] == Redeemed(u[1..], ttl, es[0].value, es[0].usedBy, es[0].now).0;
      }
    }
  }

  lemma StepAgrees(p: seq<Token>, u: seq<Token>, ttl: int, es: seq<Event>)
    requires es != [] && PrunedFrom(p, u, ttl, es) && PrunesUnwanted(p, ttl, es)
    ensures Step(p, ttl, es[0], true).1 == Step(u, ttl, es[0], false).1
    ensures PrunedFrom(Step(p, ttl, es[0], true).0, Step(u, ttl, es[0], false).0, ttl, es[1..])
  {
    PrunedLater(p, u, ttl, es);
    if es[0].Generate? {
      if Step(p, ttl, es[0], true).1.Given? {
        PruneMore(p, u, ttl, es[0].now, es[1..]);
        PrunedAppend(Pruned(p, ttl, es[0].now), u, ttl, es[1..], Minted(es[0]));
      }
    } else if es[0].value != "" {
      RedeemAgrees(p, u, ttl, es);
    }
  }

  lemma {:induction false} RunAgrees(p: seq<Token>, u: seq<Token>, ttl: int, es: seq<Event>)
    requires PrunedFrom(p, u, ttl, es) && DropsNothingWanted(p, ttl, es)
    ensures Run(p, ttl, es, true).1 == Run(u, ttl, es, false).1
    decreases |es|
  {
    if es != [] {
      StepAgrees(p, u, ttl, es);
      RunAgrees(Step(p, ttl, es[0], true).0, Step(u, ttl, es[0], false).0, ttl, es[1..]);
    }
  }

  predicate ClockFrom(es: seq<Event>, now: int) {
    es == [] || (es[0].now >= now && ClockFrom(es[1..], es[0].now))
  }

  lemma {:induction false} ClockLater(es: seq<Event>, now: int, k: nat)
    requires ClockFrom(es, now) && k < |es|
    ensures es[k].now >= now
  {
    if k > 0 {
      ClockLater(es[1..], es[0].now, k - 1);
    }
  }

  lemma {:induction false} ForwardClockWantsNothing(tokens: seq<Token>, ttl: int, now: int, es: seq<Event>)
    requires ClockFrom(es, now)
    ensures DropsNothingWanted(tokens, ttl, es)
    decreases |es|
  {
    if es != [] {
      ForwardClockWantsNothing(Step(tokens, ttl, es[0], true).0, ttl, es[0].now, es[1..]);
      forall t | Dead(t, ttl, es[0].now) ensures !Wanted(t, ttl, es[1..]) {
        forall k | 0 <= k < |es[1..]| ensures Expired(t.created, ttl, es[1..][k].now) {
          ClockLater(es[1..], es[0].now, k);
        }
      }
    }
  }

  /** For one TTL and a clock that never goes back, pruning is invisible: every
      call of every run gets the reply it would get from a store that never
      prunes. */
  lemma PruningIsInvisible(ttl: int, now: int, es: seq<Event>)
    requires ClockFrom(es, now)
    ensures Run([], ttl, es, true).1 == Run([], ttl, es, false).1
  {
    ForwardClockWantsNothing([], ttl, now, es);
    RunAgrees([], [], ttl, es);
  }

  lemma {:induction false} PrunedSubset(p: seq<Token>, u: seq<Token>, ttl: int, es: seq<Event>, t: Token)
    requires PrunedFrom(p, u, ttl, es) && t in p
    ensures t in u
    decreases |u|
  {
    if p[0] == u[0] && PrunedFrom(p[1..], u[1..], ttl, es) {
      if t != p[0] {
        PrunedSubset(p[1..], u[1..], ttl, es, t);
      }
    } else {
      PrunedSubset(p, u[1..], ttl, es, t);
    }
  }

  lemma UnusedStays(u: seq<Token>, ttl: int, es: seq<Event>, t: Token)
    requires es != [] && FreshAhead(u, es) && t in u && !t.used
    requires !(es[0].Redeem? && es[0].value == t.value != "" && !Expired(t.created, ttl, es[0].now))
    ensures t in Step(u, ttl, es[0], false).0
  {
    if es[0].Redeem? && es[0].value != "" {
      RedeemedMeaning(u, ttl, es[0].value, es[0].usedBy, es[0].now);
      var i :| 0 <= i < |u| && u[i] == t;
      assert Redeemed(u, ttl, es[0].value, es[0].usedBy, es[0].now).0[i] == t;
    }
  }

  lemma WantedFirst(t: Token, ttl: int, es: seq<Event>)
    requires Wanted(t, ttl, es)
    ensures (es[0].Redeem? && es[0].value == t.value != "" && !Expired(t.created, ttl, es[0].now))
            || Wanted(t, ttl, es[1..])
  {
    var k :| 0 <= k < |es| && es[k].Redeem? && es[k].value == t.value != "" && !Expired(t.created, ttl, es[k].now);
    if k > 0 {
      assert es[1..][k - 1] == es[k];
    }
  }

  /** A token one store has lost and the other still holds shows as soon as it is
      asked for. */
  lemma {:induction false} GoneIsMissed(p: seq<Token>, u: seq<Token>, ttl: int, es: seq<Event>, t: Token)
    requires FreshAhead(p, es) && FreshAhead(u, es)
    requires UsedUp(p, es, t.value) && t in u && !t.used && Wanted(t, ttl, es)
    ensures Run(p, ttl, es, true).1 != Run(u, ttl, es, false).1
    decreases |es|
  {
    StepKeepsUsedUp(p, ttl, es, true, t.value);
    if es[0].Redeem? && es[0].value == t.value != "" && !Expired(t.created, ttl, es[0].now) {
      RedeemedMeaning(u, ttl, es[0].value, es[0].usedBy, es[0].now);
      assert Step(u, ttl, es[0], false).1 != Refused(NotFound);
      assert Run(p, ttl, es, true).1[0] != Run(u, ttl, es, false).1[0];
    } else {
      WantedFirst(t, ttl, es);
      UnusedStays(u, ttl, es, t);
      StepKeepsFresh(p, ttl, es, true);
      StepKeepsFresh(u, ttl, es, false);
      GoneIsMissed(Step(p, ttl, es[0], true).0, Step(u, ttl, es[0], false).0, ttl, es[1..], t);
      assert Run(p, ttl, es, true).1[1..] != Run(u, ttl, es, false).1[1..];
    }
  }

  lemma DroppedIsGone(p: seq<Token>, ttl: int, es: seq<Event>, t: Token)
    requires es != [] && es[0].Generate? && Step(p, ttl, es[0], true).1.Given?
    requires FreshAhead(p, es) && t in p && Dead(t, ttl, es[0].now)
    ensures UsedUp(Step(p, ttl, es[0], true).0, es[1..], t.value)
  {
    TailOfEvents(es);
    PrunedMeaning(p, ttl, es[0].now);
    forall o | o in p && o.value == t.value ensures o == t {
      var i, j :| 0 <= i < |p| && 0 <= j < |p| && p[i] == o && p[j] == t;
    }
  }

  lemma DroppedIsMissed(p: seq<Token>, u: seq<Token>, ttl: int, es: seq<Event>)
    requires es != [] && PrunedFrom(p, u, ttl, es) && FreshAhead(p, es) && FreshAhead(u, es)
    requires !PrunesUnwanted(p, ttl, es)
    ensures Run(p, ttl, es, true).1 != Run(u, ttl, es, false).1
  {
    var t :| t in p && Dead(t, ttl, es[0].now) && Wanted(t, ttl, es[1..]);
    var p', u' := Step(p, ttl, es[0], true).0, Step(u, ttl, es[0], false).0;
    DroppedIsGone(p, ttl, es, t);
    PrunedSubset(p, u, ttl, es, t);
    StepKeepsFresh(p, ttl, es, true);
    StepKeepsFresh(u, ttl, es, false);
    GoneIsMissed(p', u', ttl, es[1..], t);
    assert Run(p, ttl, es, true).1[1..] != Run(u, ttl, es, false).1[1..];
  }

  lemma {:induction false} AgreesExactly(p: seq<Token>, u: seq<Token>, ttl: int, es: seq<Event>)
    requires PrunedFrom(p, u, ttl, es) && FreshAhead(p, es) && FreshAhead(u, es)
    ensures Run(p, ttl, es, true).1 == Run(u, ttl, es, false).1 ==> DropsNothingWanted(p, ttl, es)
    decreases |es|
  {
    if es != [] {
      if PrunesUnwanted(p, ttl, es) {
        var p', u' := Step(p, ttl, es[0], true).0, Step(u, ttl, es[0], false).0;
        StepAgrees(p, u, ttl, es);
        StepKeepsFresh(p, ttl, es, true);
        StepKeepsFresh(u, ttl, es, false);
        AgreesExactly(p', u', ttl, es[1..]);
        assert Run(p, ttl, es, true).1[1..] == Run(p', ttl, es[1..], true).1;
        assert Run(u, ttl, es, false).1[1..] == Run(u', ttl, es[1..], false).1;
      } else {
        DroppedIsMissed(p, u, ttl, es);
      }
    }
  }

  /** Whatever the clock does: with distinct values, pruning is invisible exactly
      if no token is pruned that a later redeem asks for at a time when it has not
      expired. */
  lemma InvisibleExactlyIfUnwanted(ttl: int, es: seq<Event>)
    requires DistinctValues(es)
    ensures Run([], ttl, es, true).1 == Run([], ttl, es, false).1 <==> DropsNothingWanted([], ttl, es)
  {
    AgreesExactly([], [], ttl, es);
    if DropsNothingWanted([], ttl, es) {
      RunAgrees([], [], ttl, es);
    }
  }

  /** For instance, a clock that steps back below the expiry of a pruned token. */
  lemma SteppingBackShows()
    ensures var mint, prune := Generate("a", Both, "x", 0, true), Generate("b", Both, "y", 20, true);
      var es := [mint, prune, Redeem("x", "u", 5, true)];
      Run([], 10, es, true).1 != Run([], 10, es, false).1
  {
    var mint, prune := Generate("a", Both, "x", 0, true), Generate("b", Both, "y", 20, true);
    var ask := Redeem("x", "u", 5, true);
    var es := [mint, prune, ask];
    var t := Minted(mint);
    assert es[1..] == [prune, ask] && es[1..][1..] == [ask];
    assert Step([], 10, mint, true).0 == [t];
    assert [ask][0].Redeem? && t in [t] && Dead(t, 10, 20) && Wanted(t, 10, [ask]);
    InvisibleExactlyIfUnwanted(10, es);
  }

  // ------------------------------------------------------- who is given what

  /** The call mints a token of this value that still lives at `now`. */
  predicate Issues(e: Event, value: string, ttl: int, now: int) {
    e.Generate? && e.clientName != "" && e.saves && e.value == value && (ttl > 0 ==> now < e.now + ttl)
  }

  predicate GivenAt(es: seq<Event>, rs: seq<Reply>, i: nat, value: string) {
    i < |es| && i < |rs| && es[i].Redeem? && es[i].value == value && rs[i].Given?
  }

  ghost predicate GivenBefore(es: seq<Event>, rs: seq<Reply>, k: nat, value: string) {
    exists i: nat :: i < k && GivenAt(es, rs, i, value)
  }

  ghost predicate IssuedBefore(es: seq<Event>, k: nat, value: string, ttl: int, now: int) {
    exists j: nat :: j < k && j < |es| && Issues(es[j], value, ttl, now)
  }

  /** The reply to a redeem of a live value, and of any other. */
  predicate Redeems(r: Reply, live: bool, saves: bool) {
    if !live then r == Refused(NotFound) else if !saves then r == Refused(SaveFailed) else r.Given?
  }

  lemma GivenBeforeNext(es: seq<Event>, rs: seq<Reply>, k: nat, value: string)
    requires 0 < k <= |es| && |rs| == |es|
    ensures GivenBefore(es, rs, k, value) <==>
      GivenAt(es, rs, 0, value) || GivenBefore(es[1..], rs[1..], k - 1, value)
  {
    if i: nat :| i < k && i > 0 && GivenAt(es, rs, i, value) {
      assert GivenAt(es[1..], rs[1..], i - 1, value);
    }
    if i: nat :| i < k - 1 && GivenAt(es[1..], rs[1..], i, value) {
      assert GivenAt(es, rs, i + 1, value);
    }
  }

  lemma IssuedBeforeNext(es: seq<Event>, k: nat, value: string, ttl: int, now: int)
    requires 0 < k <= |es|
    ensures IssuedBefore(es, k, value, ttl, now) <==>
      Issues(es[0], value, ttl, now) || IssuedBefore(es[1..], k - 1, value, ttl, now)
  {
    if j: nat :| j < k && j > 0 && Issues(es[j], value, ttl, now) {
      assert Issues(es[1..][j - 1], value, ttl, now);
    }
    if j: nat :| j < k - 1 && Issues(es[1..][j], value, ttl, now) {
      assert Issues(es[j + 1], value, ttl, now);
    }
  }

  lemma {:induction false} ReplyPerCall(tokens: seq<Token>, ttl: int, es: seq<Event>, prunes: bool)
    ensures |Run(tokens, ttl, es, prunes).1| == |es|
    decreases |es|
  {
    if es != [] {
      ReplyPerCall(Step(tokens, ttl, es[0], prunes).0, ttl, es[1..], prunes);
    }
  }

  /** A call other than a redeem that gives it leaves an unused token alone. */
  lemma UnlessGiven(u: seq<Token>, ttl: int, es: seq<Event>, t: Token)
    requires es != [] && FreshAhead(u, es) && t in u && !t.used
    requires !(es[0].Redeem? && es[0].value == t.value && Step(u, ttl, es[0], false).1.Given?)
    ensures t in Step(u, ttl, es[0], false).0
  {
    if es[0].Redeem? && es[0].value != "" {
      RedeemedMeaning(u, ttl, es[0].value, es[0].usedBy, es[0].now);
      var i :| 0 <= i < |u| && u[i] == t;
      if Matches(t, es[0].value, ttl, es[0].now) {
        assert !es[0].saves;
      } else {
        assert Redeemed(u, ttl, es[0].value, es[0].usedBy, es[0].now).0[i] == t;
      }
    }
  }

  lemma RedeemNow(u: seq<Token>, ttl: int, e: Event, t: Token)
    requires ValuesDistinct(u) && t in u && !t.used && e.Redeem? && e.value == t.value != ""
    ensures Redeems(Step(u, ttl, e, false).1, !Expired(t.created, ttl, e.now), e.saves)
  {
    RedeemedMeaning(u, ttl, e.value, e.usedBy, e.now);
    var i :| 0 <= i < |u| && u[i] == t;
    forall j | 0 <= j < |u| && Matches(u[j], e.value, ttl, e.now) ensures u[j] == t {}
  }

  /** A stored token is given to the first redeem that finds it live and can save. */
  lemma {:induction false} StoredIsGiven(u: seq<Token>, ttl: int, es: seq<Event>, t: Token, k: nat)
    requires FreshAhead(u, es) && t in u && !t.used && k < |es| && es[k].Redeem? && es[k].value == t.value != ""
    ensures var rs := Run(u, ttl, es, false).1;
      && k < |rs|
      && Redeems(rs[k], !Expired(t.created, ttl, es[k].now) && !GivenBefore(es, rs, k, t.value), es[k].saves)
    decreases |es|
  {
    var u1, rs := Step(u, ttl, es[0], false).0, Run(u, ttl, es, false).1;
    ReplyPerCall(u, ttl, es, false);
    if k == 0 {
      RedeemNow(u, ttl, es[0], t);
    } else {
      StepKeepsFresh(u, ttl, es, false);
      assert rs[1..] == Run(u1, ttl, es[1..], false).1;
      GivenBeforeNext(es, rs, k, t.value);
      if GivenAt(es, rs, 0, t.value) {
        GivingUsesUp(u, ttl, es, false);
        NeverAgain(u1, ttl, es[1..], false, t.value, k - 1);
      } else {
        UnlessGiven(u, ttl, es, t);
        StoredIsGiven(u1, ttl, es[1..], t, k - 1);
      }
    }
  }

  lemma NotStored(u: seq<Token>, ttl: int, e: Event, value: string)
    requires ValuesDistinct(u) && e.Redeem? && forall t :: t in u ==> t.value != value
    ensures e.value == value ==> Step(u, ttl, e, false).1 == Refused(NotFound)
    ensures forall t :: t in Step(u, ttl, e, false).0 ==> t.value != value
  {
    RedeemedMeaning(u, ttl, e.value, e.usedBy, e.now);
    var u1 := Step(u, ttl, e, false).0;
    forall t | t in u1 ensures t.value != value {
      var i :| 0 <= i < |u1| && u1[i] == t;
      assert u[i] in u && u1[i].value == u[i].value;
    }
  }

  lemma {:induction false} NotIssuedTwice(es: seq<Event>, k: nat, value: string, ttl: int, now: int)
    requires es != [] && DistinctValues(es) && es[0].Generate? && es[0].value == value && 0 < k <= |es|
    ensures !IssuedBefore(es[1..], k - 1, value, ttl, now)
  {
  }

  /** A value not in the store yet. */
  lemma {:induction false} LaterIsGiven(u: seq<Token>, ttl: int, es: seq<Event>, value: string, k: nat)
    requires FreshAhead(u, es) && (forall t :: t in u ==> t.value != value)
    requires k < |es| && es[k].Redeem? && es[k].value == value != ""
    ensures var rs := Run(u, ttl, es, false).1;
      && k < |rs|
      && Redeems(rs[k], IssuedBefore(es, k, value, ttl, es[k].now) && !GivenBefore(es, rs, k, value), es[k].saves)
    decreases |es|
  {
    var u1, rs := Step(u, ttl, es[0], false).0, Run(u, ttl, es, false).1;
    ReplyPerCall(u, ttl, es, false);
    if k == 0 {
      NotStored(u, ttl, es[0], value);
    } else {
      StepKeepsFresh(u, ttl, es, false);
      assert rs[1..] == Run(u1, ttl, es[1..], false).1;
      GivenBeforeNext(es, rs, k, value);
      IssuedBeforeNext(es, k, value, ttl, es[k].now);
      if es[0].Generate? && es[0].value == value && Step(u, ttl, es[0], false).1.Given? {
        NotIssuedTwice(es, k, value, ttl, es[k].now);
        StoredIsGiven(u1, ttl, es[1..], Minted(es[0]), k - 1);
      } else {
        if es[0].Redeem? {
          NotStored(u, ttl, es[0], value);
        }
        LaterIsGiven(u1, ttl, es[1..], value, k - 1);
      }
    }
  }

  lemma {:induction false} EmptyIsNotFound(tokens: seq<Token>, ttl: int, es: seq<Event>, k: nat)
    requires k < |es| && es[k].Redeem? && es[k].value == ""
    ensures k < |Run(tokens, ttl, es, true).1| && Run(tokens, ttl, es, true).1[k] == Refused(NotFound)
    decreases |es|
  {
    if k > 0 {
      EmptyIsNotFound(Step(tokens, ttl, es[0], true).0, ttl, es[1..], k - 1);
    }
  }

  /** Who is given what, with distinct values and nothing pruned that is wanted (a
      clock that never goes back, say): a redeem finds its value exactly if a call
      has minted it, it has not expired, and no earlier redeem was given it; and is
      given it exactly if the file can be saved as well. */
  lemma RedeemedExactlyIf(ttl: int, es: seq<Event>, k: nat)
    requires DistinctValues(es) && DropsNothingWanted([], ttl, es)
    requires k < |es| && es[k].Redeem?
    ensures var rs := Run([], ttl, es, true).1;
      && |rs| == |es|
      && var found := es[k].value != "" && IssuedBefore(es, k, es[k].value, ttl, es[k].now)
                      && !GivenBefore(es, rs, k, es[k].value);
         && (rs[k].Given? <==> found && es[k].saves)
         && (rs[k] == Refused(SaveFailed) <==> found && !es[k].saves)
         && (rs[k] == Refused(NotFound) <==> !found)
  {
    RunAgrees([], [], ttl, es);
    ReplyPerCall([], ttl, es, true);
    if es[k].value == "" {
      EmptyIsNotFound([], ttl, es, k);
    } else {
      LaterIsGiven([], ttl, es, es[k].value, k);
    }
  }

  /** Two tokens that differ at most in how they were used. */
  predicate SameIssue(o: Token, t: Token, value: string) {
    o.value == value && o.clientName == t.clientName && o.grant == t.grant && o.created == t.created
  }

  lemma {:induction false} HitIsStored(tokens: seq<Token>, ttl: int, value: string, usedBy: string, now: int)
    ensures var hit := Redeemed(tokens, ttl, value, usedBy, now).1;
      hit.Some? ==> exists o :: o in tokens && Matches(o, value, ttl, now) && hit.value == Spent(o, usedBy, now)
  {
    if tokens != [] {
      if Matches(tokens[0], value, ttl, now) {
        assert tokens[0] in tokens;
      } else {
        HitIsStored(tokens[1..], ttl, value, usedBy, now);
      }
    }
  }

  lemma {:induction false} StoredBeforeRedeem(tokens: seq<Token>, ttl: int, value: string, usedBy: string,
                                              now: int, o: Token)
    requires o in Redeemed(tokens, ttl, value, usedBy, now).0
    ensures exists o' :: o' in tokens && SameIssue(o', o, o.value)
  {
    if Matches(tokens[0], value, ttl, now) {
      if o != Spent(tokens[0], usedBy, now) {
        assert o in tokens[1..];
        assert SameIssue(o, o, o.value);
      } else {
        assert SameIssue(tokens[0], o, o.value);
      }
    } else if o != tokens[0] {
      StoredBeforeRedeem(tokens[1..], ttl, value, usedBy, now, o);
    } else {
      assert SameIssue(o, o, o.value);
    }
  }

  lemma StoredBefore(tokens: seq<Token>, ttl: int, e: Event, o: Token)
    requires o in Step(tokens, ttl, e, true).0
    ensures (e.Generate? && o == Minted(e)) || exists o' :: o' in tokens && SameIssue(o', o, o.value)
  {
    assert SameIssue(o, o, o.value);
    match e
    case Generate(_, _, _, now, _) => PrunedMeaning(tokens, ttl, now);
    case Redeem(value, usedBy, now, _) =>
      if o !in tokens {
        StoredBeforeRedeem(tokens, ttl, value, usedBy, now, o);
      }
  }

  /** What is given was minted for that value earlier in the run, carries the name
      and grant it was minted with, and has not expired. */
  lemma {:induction false} GivenWasMinted(tokens: seq<Token>, ttl: int, es: seq<Event>, k: nat)
    requires Gives(es, Run(tokens, ttl, es, true).1, k)
    ensures var t := Run(tokens, ttl, es, true).1[k].token;
      && t.used && t.usedBy == es[k].usedBy && t.usedAt == es[k].now && t.value == ""
      && !Expired(t.created, ttl, es[k].now)
      && ((exists o :: o in tokens && SameIssue(o, t, es[k].value)) ||
          (exists j :: 0 <= j < k && es[j].Generate? && SameIssue(Minted(es[j]), t, es[k].value)))
    decreases |es|
  {
    if k == 0 {
      HitIsStored(tokens, ttl, es[0].value, es[0].usedBy, es[0].now);
    } else {
      var (tokens1, _) := Step(tokens, ttl, es[0], true);
      GivenWasMinted(tokens1, ttl, es[1..], k - 1);
      var t := Run(tokens, ttl, es, true).1[k].token;
      if exists o :: o in tokens1 && SameIssue(o, t, es[k].value) {
        var o :| o in tokens1 && SameIssue(o, t, es[k].value);
        StoredBefore(tokens, ttl, es[0], o);
        if es[0].Generate? && o == Minted(es[0]) {
          assert SameIssue(Minted(es[0]), t, es[k].value);
        } else {
          var o' :| o' in tokens && SameIssue(o', o, o.value);
          assert SameIssue(o', t, es[k].value);
        }
      } else {
        var j :| 0 <= j < k - 1 && es[1..][j].Generate? && SameIssue(Minted(es[1..][j]), t, es[k].value);
        assert SameIssue(Minted(es[j + 1]), t, es[k].value);
      }
    }
  }
}
