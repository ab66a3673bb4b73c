/** Expansion of an include operand through the table of macro alternatives. */
module HeaderExpansion {

  // The meaning of an operand is given by alias chains, independently of the
  // recursive search: an operand reaches every text that some choice of one
  // alternative per step leads to.

  import opened Outcomes
  import opened HeaderText

  const MAX_ALIAS_DEPTH: nat := 64
  const MAX_EXPANSIONS: nat := 262144
  const MAX_EXPANSION_BYTES: nat := 64 * 1024 * 1024

  // --- What an operand can stand for ---------------------------------------------

  /** One alias step: an identifier with an alternative. */
  predicate AliasStep(macros: Macros, from: string, to: string) {
    !LiteralText(from) && Identifier(from) && HasAlternative(macros, from, to)
  }

  ghost predicate Chain(macros: Macros, texts: seq<string>) {
    forall i :: 0 < i < |texts| ==> AliasStep(macros, texts[i - 1], texts[i])
  }

  ghost predicate ChainBetween(macros: Macros, from: string, to: string, texts: seq<string>) {
    texts != [] && texts[0] == from && texts[|texts| - 1] == to && Chain(macros, texts)
  }

  ghost predicate Reaches(macros: Macros, from: string, to: string) {
    exists texts :: ChainBetween(macros, from, to, texts)
  }

  lemma ReachesSelf(macros: Macros, text: string)
    ensures Reaches(macros, text, text)
  {
    assert ChainBetween(macros, text, text, [text]);
  }

  lemma ReachesThroughStep(macros: Macros, from: string, next: string, to: string)
    requires AliasStep(macros, from, next) && Reaches(macros, next, to)
    ensures Reaches(macros, from, to)
  {
    var texts :| ChainBetween(macros, next, to, texts);
    assert ChainBetween(macros, from, to, [from] + texts);
  }

  lemma ReachesCases(macros: Macros, from: string, to: string)
    requires Reaches(macros, from, to) && from != to
    ensures exists next :: AliasStep(macros, from, next) && Reaches(macros, next, to)
  {
    var texts :| ChainBetween(macros, from, to, texts);
    assert AliasStep(macros, texts[0], texts[1]);
    assert ChainBetween(macros, texts[1], to, texts[1..]);
  }

  lemma ReachesExtends(macros: Macros, from: string, mid: string, to: string)
    requires Reaches(macros, from, mid) && AliasStep(macros, mid, to)
    ensures Reaches(macros, from, to)
  {
    var texts :| ChainBetween(macros, from, mid, texts);
    assert ChainBetween(macros, from, to, texts + [to]);
  }

  lemma ReachesMonotone(small: Macros, large: Macros, from: string, to: string)
    requires MacrosWithin(small, large) && Reaches(small, from, to)
    ensures Reaches(large, from, to)
  {
    var texts :| ChainBetween(small, from, to, texts);
    forall i | 0 < i < |texts| ensures AliasStep(large, texts[i - 1], texts[i]) {
      assert AliasStep(small, texts[i - 1], texts[i]);
    }
    assert ChainBetween(large, from, to, texts);
  }

  /** The header names an operand can stand for. */
  ghost predicate Denotes(macros: Macros, operand: string, lookup: Lookup) {
    exists text :: Reaches(macros, operand, text) && LiteralText(text) && ParseLiteral(text) == Some(lookup)
  }

  ghost predicate DenotedByOne(macros: Macros, operands: set<string>, lookup: Lookup) {
    exists v :: v in operands && Denotes(macros, v, lookup)
  }

  /**
   A text the key may be built from: a plain header name (never an angle form
   that comes out of a macro), or an identifier.
   */
  predicate Admissible(text: string, replacement: bool) {
    if LiteralText(text) then
      && !(replacement && text[0] == '<')
      && ParseLiteral(text).Some? && PlainName(ParseLiteral(text).value.name)
    else Identifier(text)
  }

  ghost predicate AllAdmissible(macros: Macros, operand: string, replacement: bool) {
    forall text :: Reaches(macros, operand, text) ==> Admissible(text, replacement || text != operand)
  }

  /** No identifier the operand reaches is left without a definition. */
  ghost predicate AllDefined(macros: Macros, operand: string) {
    forall text :: Reaches(macros, operand, text) && !LiteralText(text) && Identifier(text) ==> text in macros
  }

  ghost predicate Avoids(macros: Macros, operand: string, active: set<string>) {
    forall text :: Reaches(macros, operand, text) && !LiteralText(text) ==> text !in active
  }

  /** No text the operand reaches can be reached again from itself. */
  ghost predicate Acyclic(macros: Macros, operand: string) {
    forall text, next :: Reaches(macros, operand, text) && AliasStep(macros, text, next) ==> !Reaches(macros, next, text)
  }

  /** Every text the operand reaches is usable, and expanding it meets no alias twice. */
  ghost predicate Settled(macros: Macros, operand: string, replacement: bool, active: set<string>) {
    && AllAdmissible(macros, operand, replacement)
    && Avoids(macros, operand, active * macros.Keys)
    && Acyclic(macros, operand)
  }

  /**
   What a successful expansion has established: `added` holds exactly the header
   names the operand denotes, and `complete` tells whether any reached identifier
   is still undefined.
   */
  ghost predicate Meaning(macros: Macros, operand: string, replacement: bool, active: set<string>,
                          added: seq<Lookup>, complete: bool) {
    && Settled(macros, operand, replacement, active)
    && (forall l :: l in added <==> Denotes(macros, operand, l))
    && (complete <==> AllDefined(macros, operand))
  }

  /** A chain of `n` alias steps from here. */
  ghost predicate Nested(macros: Macros, text: string, n: nat)
    decreases n
  {
    n == 0 || exists next :: AliasStep(macros, text, next) && Nested(macros, next, n - 1)
  }

  /**
   Why a search stops at a budget: too many expansions, a text that does not fit any more, or
   aliases nested more than 64 deep.
   */
  ghost predicate Exhausted(macros: Macros, operand: string, depth: nat, expansions: nat, expansionBytes: nat) {
    || expansions > 262144
    || (exists text :: Reaches(macros, operand, text) && expansionBytes + |text| > 0x400_0000)
    || Nested(macros, operand, if depth <= 64 then 65 - depth else 0)
  }

  lemma ExhaustedHere(macros: Macros, operand: string, depth: nat, expansions: nat, expansionBytes: nat)
    requires expansions > 262144 || expansionBytes + |operand| > 0x400_0000 || depth > 64
    ensures Exhausted(macros, operand, depth, expansions, expansionBytes)
  {
    ReachesSelf(macros, operand);
  }

  lemma ExhaustedInside(macros: Macros, operand: string, next: string, depth: nat, expansions: nat, expansionBytes: nat)
    requires AliasStep(macros, operand, next) && Exhausted(macros, next, depth + 1, expansions, expansionBytes)
    ensures Exhausted(macros, operand, depth, expansions, expansionBytes)
  {
    if text :| Reaches(macros, next, text) && expansionBytes + |text| > 0x400_0000 {
      ReachesThroughStep(macros, operand, next, text);
    }
    if Nested(macros, next, if depth + 1 <= 64 then 65 - (depth + 1) else 0) && depth <= 64 {
      assert Nested(macros, operand, 65 - depth);
    }
  }

  // --- The search ------------------------------------------------------------------

  datatype Outcome = Complete | Incomplete | OverBudget(limit: string) | Refused(reason: string) {
    predicate Done() { Complete? || Incomplete? }
  }

  /** The growing result, the aliases being expanded, and the two budgets. */
  class Expansion {
    var result: seq<Lookup>
    var active: set<string>
    var expansions: nat
    var expansionBytes: nat

    ghost predicate Valid()
      reads this
    {
      expansions <= 262144 && expansionBytes <= 0x400_0000
    }

    constructor (spentExpansions: nat, spentBytes: nat)
      requires spentExpansions <= 262144 && spentBytes <= 0x400_0000
      ensures Valid() && result == [] && active == {}
      ensures expansions == spentExpansions && expansionBytes == spentBytes
    {
      result, active, expansions, expansionBytes := [], {}, spentExpansions, spentBytes;
    }

    /** A complete header name is taken as it is, or refused. */
    method ExpandLiteral(operand: string, ghost macros: Macros, replacement: bool) returns (o: Outcome)
      requires Valid() && LiteralText(operand)
      modifies `result
      ensures Valid() && (o.Complete? || o.Refused?) && old(result) <= result
      ensures o.Complete? ==> Meaning(macros, operand, replacement, active, result[|old(result)|..], true)
      ensures o.Refused? ==> !Settled(macros, operand, replacement, active)
    {
      SettledStart(macros, operand, replacement, active);
      if replacement && operand[0] == '<' {
        return Refused("angle-token header macro requires uncached analysis");
      }
      var lookup := ParseLiteral(operand);
      if lookup.None? || !PlainName(lookup.value.name) {
        return Refused("unsupported include operand requires uncached analysis");
      }
      result := result + [lookup.value];
      LeafMeaning(macros, operand, replacement, active, result[|old(result)|..]);
      return Complete;
    }

    /**
     Appends exactly the header names the operand denotes; beyond the budgets it
     refuses only an operand that is not settled. Termination is the shrinking
     set of table names not yet being expanded.
     */
    method Expand(operand: string, macros: Macros, replacement: bool) returns (o: Outcome)
      requires Valid()
      modifies this
      ensures o.Done() ==> Valid() && active == old(active) && old(result) <= result
      ensures o.Done() ==>
        Meaning(macros, operand, replacement, old(active), result[|old(result)|..], o.Complete?)
      ensures o.Refused? ==> !Settled(macros, operand, replacement, old(active))
      ensures o.OverBudget? ==> Exhausted(macros, operand, |old(active)|, expansions, expansionBytes)
      ensures o.Done() ==> |old(active)| <= 64
      decreases macros.Keys - active
    {
      SettledStart(macros, operand, replacement, active);
      if |operand| > MAX_EXPANSION_BYTES - expansionBytes {
        ExhaustedHere(macros, operand, |active|, expansions, expansionBytes);
        return OverBudget("header macro expansion text limit exceeded");
      }
      expansionBytes := expansionBytes + |operand|;
      expansions := expansions + 1;
      if expansions > MAX_EXPANSIONS || |active| > MAX_ALIAS_DEPTH {
        ExhaustedHere(macros, operand, |active|, expansions, expansionBytes);
        return OverBudget("header macro expansion limit exceeded");
      }
      if LiteralText(operand) {
        o := ExpandLiteral(operand, macros, replacement);
        return;
      }
      if !Identifier(operand) {
        return Refused("complex header macro requires uncached analysis");
      }
      if operand !in macros {
        LeafMeaning(macros, operand, replacement, old(active), result[|old(result)|..]);
        return Incomplete;
      }
      if operand in active {
        return Refused("cyclic header macro requires uncached analysis");
      }
      active := active + {operand};
      o := ExpandAlternatives(operand, macros, replacement, old(active));
      active := active - {operand};
    }

    /** The loop over the alternatives of one alias. */
    method ExpandAlternatives(operand: string, macros: Macros, ghost replacement: bool, ghost outer: set<string>) returns (o: Outcome)
      requires Valid()
      requires !LiteralText(operand) && Identifier(operand) && operand in macros
      requires operand !in outer && active == outer + {operand}
      modifies this
      ensures o.Done() ==> Valid() && active == old(active) && old(result) <= result
      ensures o.Done() ==>
        Meaning(macros, operand, replacement, outer, result[|old(result)|..], o.Complete?)
      ensures o.Refused? ==> !Settled(macros, operand, replacement, outer)
      ensures o.OverBudget? ==> Exhausted(macros, operand, |outer|, expansions, expansionBytes)
      decreases macros.Keys - outer, 0
    {
      var todo := macros[operand];
      ghost var done: set<string> := {};
      var complete := true;
      while todo != {}
        invariant Valid() && active == old(active) && old(result) <= result
        invariant done !! todo && done + todo == macros[operand]
        invariant forall l :: l in result[|old(result)|..] <==> DenotedByOne(macros, done, l)
        invariant forall v :: v in done ==> Settled(macros, v, true, active)
        invariant complete <==> forall v :: v in done ==> AllDefined(macros, v)
        decreases todo
      {
        var value :| value in todo;
        ghost var before := result;
        var inner := Expand(value, macros, true);
        if !inner.Done() {
          AliasStops(macros, operand, value, replacement, outer, inner, expansions, expansionBytes);
          return inner;
        }
        if inner.Incomplete? {
          complete := false;
        }
        assert result[|old(result)|..] == before[|old(result)|..] + result[|before|..];
        todo, done := todo - {value}, done + {value};
      }
      AliasMeaning(macros, operand, replacement, outer, result[|old(result)|..], complete);
      return if complete then Complete else Incomplete;
    }
  }

  /** A text without alias steps reaches itself only. */
  lemma LeafReaches(macros: Macros, text: string)
    requires LiteralText(text) || !Identifier(text) || text !in macros
    ensures forall t :: Reaches(macros, text, t) <==> t == text
  {
    ReachesSelf(macros, text);
    forall t | Reaches(macros, text, t) ensures t == text {
      if t != text { ReachesCases(macros, text, t); }
    }
  }

  lemma SettledStart(macros: Macros, text: string, replacement: bool, active: set<string>)
    ensures Settled(macros, text, replacement, active) ==>
      Admissible(text, replacement) && (LiteralText(text) || text !in active * macros.Keys)
  {
    ReachesSelf(macros, text);
  }

  lemma LeafMeaning(macros: Macros, text: string, replacement: bool, active: set<string>, added: seq<Lookup>)
    requires Admissible(text, replacement) && (LiteralText(text) || text !in macros)
    requires added == if LiteralText(text) then [ParseLiteral(text).value] else []
    ensures Meaning(macros, text, replacement, active, added, LiteralText(text))
  {
    LeafReaches(macros, text);
  }

  /** What an alias stands for, from what its alternatives stand for. */
  lemma AliasMeaning(macros: Macros, operand: string, replacement: bool, outer: set<string>,
                     added: seq<Lookup>, complete: bool)
    requires !LiteralText(operand) && Identifier(operand) && operand in macros && operand !in outer
    requires forall v :: v in macros[operand] ==> Settled(macros, v, true, outer + {operand})
    requires forall l :: l in added <==> DenotedByOne(macros, macros[operand], l)
    requires complete <==> forall v :: v in macros[operand] ==> AllDefined(macros, v)
    ensures Meaning(macros, operand, replacement, outer, added, complete)
  {
    forall v | v in macros[operand] ensures AliasStep(macros, operand, v) {}
    forall text | Reaches(macros, operand, text)
      ensures text == operand || exists v :: v in macros[operand] && Reaches(macros, v, text)
    {
      if text != operand { ReachesCases(macros, operand, text); }
    }
    forall v, text | v in macros[operand] && Reaches(macros, v, text) ensures Reaches(macros, operand, text) {
      ReachesThroughStep(macros, operand, v, text);
    }
    assert Acyclic(macros, operand) by { AliasAcyclic(macros, operand, outer); }
    assert AllAdmissible(macros, operand, replacement);
    assert Avoids(macros, operand, outer * macros.Keys);
    assert AllDefined(macros, operand) <==> forall v :: v in macros[operand] ==> AllDefined(macros, v);
    assert forall l :: Denotes(macros, operand, l) <==> DenotedByOne(macros, macros[operand], l);
  }

  /** What stops the search of one alternative stops that of the alias. */
  lemma AliasStops(macros: Macros, operand: string, value: string, replacement: bool, outer: set<string>,
                   inner: Outcome, expansions: nat, expansionBytes: nat)
    requires AliasStep(macros, operand, value) && operand !in outer
    requires inner.Refused? ==> !Settled(macros, value, true, outer + {operand})
    requires inner.OverBudget? ==> Exhausted(macros, value, |outer + {operand}|, expansions, expansionBytes)
    ensures inner.Refused? ==> !Settled(macros, operand, replacement, outer)
    ensures inner.OverBudget? ==> Exhausted(macros, operand, |outer|, expansions, expansionBytes)
  {
    if inner.Refused? {
      AliasRefused(macros, operand, value, replacement, outer);
    } else if inner.OverBudget? {
      ExhaustedInside(macros, operand, value, |outer|, expansions, expansionBytes);
    }
  }

  lemma AliasRefused(macros: Macros, operand: string, value: string, replacement: bool, outer: set<string>)
    requires AliasStep(macros, operand, value)
    requires !Settled(macros, value, true, outer + {operand})
    ensures !Settled(macros, operand, replacement, outer)
  {
    if Settled(macros, operand, replacement, outer) {
      forall text | Reaches(macros, value, text) ensures Reaches(macros, operand, text) {
        ReachesThroughStep(macros, operand, value, text);
      }
      ReachesSelf(macros, operand);
      assert !Reaches(macros, value, operand);
      assert Avoids(macros, value, (outer + {operand}) * macros.Keys);
    }
  }

  lemma AliasAcyclic(macros: Macros, operand: string, outer: set<string>)
    requires !LiteralText(operand) && Identifier(operand) && operand in macros
    requires forall v :: v in macros[operand] ==> Avoids(macros, v, (outer + {operand}) * macros.Keys)
    requires forall v :: v in macros[operand] ==> Acyclic(macros, v)
    ensures Acyclic(macros, operand)
  {
    forall text, next | Reaches(macros, operand, text) && AliasStep(macros, text, next)
      ensures !Reaches(macros, next, text)
    {
      if text == operand {
        assert Avoids(macros, next, (outer + {operand}) * macros.Keys);
        assert operand in (outer + {operand}) * macros.Keys;
      } else {
        ReachesCases(macros, operand, text);
      }
    }
  }
}
