/** Mapping validated claims to roles. */
module RoleMapping {
  import opened Text
  import opened TokenClaims

  datatype Rule = Rule(claim: string, value: string, roles: seq<string>)

  /** A string matches as a whole, or as one of several words. */
  predicate Matches(c: Claim, expected: string) {
    match c
    case Str(s) => s == expected || (|Fields(s)| > 1 && expected in Fields(s))
    case Arr(items) => Str(expected) in items
    case Strings(strings) => expected in strings
    case _ => false
  }

  /** A list matches exactly the values it holds, a number or anything else none. */
  lemma MatchesExactly(c: Claim, expected: string)
    ensures c.Arr? ==> (Matches(c, expected) <==> exists i: nat :: i < |c.items| && c.items[i] == Str(expected))
    ensures c.Strings? ==> (Matches(c, expected) <==> exists i: nat :: i < |c.strings| && c.strings[i] == expected)
    ensures c.Num? || c.Other? ==> !Matches(c, expected)
  {
  }

  method MatchesValue(c: Claim, expected: string) returns (yes: bool)
    ensures yes == Matches(c, expected)
    ensures c.Arr? ==> (yes <==> exists i: nat :: i < |c.items| && c.items[i] == Str(expected))
    ensures c.Strings? ==> (yes <==> exists i: nat :: i < |c.strings| && c.strings[i] == expected)
    ensures c.Num? || c.Other? ==> !yes
  {
    MatchesExactly(c, expected);
    match c
    case Str(s) =>
      if s == expected {
        return true;
      }
      var parts := Fields(s);
      if |parts| > 1 {
        for i := 0 to |parts|
          invariant expected !in parts[..i]
        {
          if parts[i] == expected {
            return true;
          }
        }
      }
      return false;
    case Arr(items) =>
      for i := 0 to |items|
        invariant Str(expected) !in items[..i]
      {
        if items[i].Str? && items[i].s == expected {
          return true;
        }
      }
      return false;
    case Strings(strings) =>
      for i := 0 to |strings|
        invariant expected !in strings[..i]
      {
        if strings[i] == expected {
          return true;
        }
      }
      return false;
    case _ => return false;
  }

  predicate RuleMatches(r: Rule, claims: Claims) {
    r.claim in claims && Matches(claims[r.claim], r.value)
  }

  predicate SomeRuleMatches(rules: seq<Rule>, claims: Claims) {
    exists r <- rules :: RuleMatches(r, claims)
  }

  /** Every role of every rule that matches, and no other. */
  ghost function Granted(rules: seq<Rule>, claims: Claims): set<string> {
    set r, role | r in rules && RuleMatches(r, claims) && role in r.roles :: role
  }

  ghost predicate NoRepeats(s: seq<string>) {
    forall i, j | 0 <= i < j < |s| :: s[i] != s[j]
  }

  /** What MapRoles may return: the order within a granted list is not determined. */
  ghost predicate IsMapping(rules: seq<Rule>, defaults: seq<string>, claims: Claims, roles: seq<string>) {
    if SomeRuleMatches(rules, claims) then NoRepeats(roles) && (set role <- roles) == Granted(rules, claims)
    else roles == defaults
  }

  lemma GrantedSnoc(rules: seq<Rule>, r: Rule, claims: Claims)
    ensures Granted(rules + [r], claims) ==
            Granted(rules, claims) + if RuleMatches(r, claims) then (set role <- r.roles) else {}
    ensures SomeRuleMatches(rules + [r], claims) <==> SomeRuleMatches(rules, claims) || RuleMatches(r, claims)
  {
    assert forall x :: x in rules + [r] <==> x in rules || x == r;
  }

  method MapRoles(rules: seq<Rule>, defaults: seq<string>, claims: Claims) returns (roles: seq<string>)
    ensures IsMapping(rules, defaults, claims, roles)
  {
    if |rules| == 0 {
      return defaults;
    }
    var roleSet: set<string>, matched := {}, false;
    for i := 0 to |rules|
      invariant roleSet == Granted(rules[..i], claims) && matched == SomeRuleMatches(rules[..i], claims)
    {
      var rule := rules[i];
      assert rules[..i + 1] == rules[..i] + [rule];
      GrantedSnoc(rules[..i], rule, claims);
      if rule.claim !in claims {
        continue;
      }
      var matches := MatchesValue(claims[rule.claim], rule.value);
      if matches {
        matched := true;
        for j := 0 to |rule.roles|
          invariant roleSet == Granted(rules[..i], claims) + (set role <- rule.roles[..j])
        {
          roleSet := roleSet + {rule.roles[j]};
          assert rule.roles[..j + 1] == rule.roles[..j] + [rule.roles[j]];
        }
        assert rule.roles[..|rule.roles|] == rule.roles;
      }
    }
    assert rules[..|rules|] == rules;
    if !matched {
      return defaults;
    }
    roles := Listed(roleSet);
  }

  /** A set as a list, in some order. */
  method Listed(s: set<string>) returns (list: seq<string>)
    ensures NoRepeats(list) && (set x <- list) == s
  {
    list := [];
    var rest := s;
    while rest != {}
      invariant rest <= s && NoRepeats(list) && (set x <- list) == s - rest
      decreases rest
    {
      var x :| x in rest;
      ghost var before := list;
      list := list + [x];
      assert (set y <- list) == (set y <- before) + {x};
      assert forall y <- before :: y in (set z <- before);
      rest := rest - {x};
    }
  }

  /** Main result: who gets a role, and why: as soon as a rule matches, the result holds a role
      if and only if some matching rule lists it, whatever the order of the rules and however often
      they are repeated; if none matches, the result is the default list. */
  lemma RolesAreJustified(rules: seq<Rule>, rules': seq<Rule>, defaults: seq<string>, claims: Claims,
                          roles: seq<string>, roles': seq<string>)
    requires IsMapping(rules, defaults, claims, roles) && IsMapping(rules', defaults, claims, roles')
    requires forall r :: r in rules <==> r in rules'
    ensures (exists r <- rules :: RuleMatches(r, claims)) ==>
              forall role :: role in roles <==> exists r <- rules :: RuleMatches(r, claims) && role in r.roles
    ensures !(exists r <- rules :: RuleMatches(r, claims)) ==> roles == defaults
    ensures forall role :: role in roles <==> role in roles'
  {
    assert SomeRuleMatches(rules, claims) <==> SomeRuleMatches(rules', claims);
    if SomeRuleMatches(rules, claims) {
      assert Granted(rules, claims) == Granted(rules', claims);
      forall role ensures role in roles <==> role in Granted(rules, claims) {
        assert role in roles <==> role in (set x <- roles);
      }
      forall role ensures role in roles' <==> role in Granted(rules, claims) {
        assert role in roles' <==> role in (set x <- roles');
      }
    }
  }

  /** The same claims, and perhaps more: new claims, or new members of a list. */
  ghost predicate Covers(c: Claim, c': Claim) {
    c == c'
    || (c.Arr? && c'.Arr? && forall i <- c.items :: i in c'.items)
    || (c.Strings? && c'.Strings? && forall s <- c.strings :: s in c'.strings)
  }

  ghost predicate ClaimsGrow(claims: Claims, claims': Claims) {
    forall k <- claims :: k in claims' && Covers(claims[k], claims'[k])
  }

  /** Once a user matches a rule, more claims never take a role away. */
  lemma MoreClaimsMoreRoles(rules: seq<Rule>, defaults: seq<string>, claims: Claims, claims': Claims,
                            roles: seq<string>, roles': seq<string>)
    requires IsMapping(rules, defaults, claims, roles) && IsMapping(rules, defaults, claims', roles')
    requires ClaimsGrow(claims, claims') && SomeRuleMatches(rules, claims)
    ensures forall role <- roles :: role in roles'
  {
    forall r <- rules | RuleMatches(r, claims) ensures RuleMatches(r, claims') {
      assert Covers(claims[r.claim], claims'[r.claim]);
    }
    assert SomeRuleMatches(rules, claims');
    forall role <- roles ensures role in roles' {
      assert role in (set x <- roles);
      assert role in Granted(rules, claims);
      var r :| r in rules && RuleMatches(r, claims) && role in r.roles;
      assert role in Granted(rules, claims');
      assert role in (set x <- roles');
    }
  }

  /** What a user who matched no rule keeps when the claims change: all of the default roles, exactly
      if still no rule matches or the matching rules list every one of them. */
  lemma DefaultsAreKeptExactly(rules: seq<Rule>, defaults: seq<string>, claims: Claims, claims': Claims,
                               roles: seq<string>, roles': seq<string>)
    requires IsMapping(rules, defaults, claims, roles) && IsMapping(rules, defaults, claims', roles')
    requires !SomeRuleMatches(rules, claims)
    ensures (forall role <- roles :: role in roles') <==>
              !SomeRuleMatches(rules, claims')
              || forall role <- defaults :: exists r <- rules :: RuleMatches(r, claims') && role in r.roles
  {
    RolesAreJustified(rules, rules, defaults, claims', roles', roles');
  }

  /** They can lose one: matching a first rule replaces the default roles. */
  lemma DefaultsAreReplaced(rule: Rule, default: string, claims': Claims, roles': seq<string>)
    requires RuleMatches(rule, claims') && default !in rule.roles
    requires IsMapping([rule], [default], claims', roles')
    ensures ClaimsGrow(map[], claims') && IsMapping([rule], [default], map[], [default]) && default !in roles'
  {
    assert RuleMatches([rule][0], claims');
    assert default !in Granted([rule], claims');
    assert default !in (set x <- roles');
  }

  /** Main result: a role that is no default, and that only rules list whose value is not in the
      user's list, is not granted. */
  lemma AbsentValueGrantsNothing(rules: seq<Rule>, defaults: seq<string>, claims: Claims, roles: seq<string>, role: string)
    requires IsMapping(rules, defaults, claims, roles) && role !in defaults
    requires forall r <- rules | role in r.roles ::
               r.claim !in claims ||
               (claims[r.claim].Arr? &&
                forall i | 0 <= i < |claims[r.claim].items| :: claims[r.claim].items[i] != Str(r.value))
    ensures role !in roles
  {
    RolesAreJustified(rules, rules, defaults, claims, roles, roles);
    forall r <- rules | role in r.roles ensures !RuleMatches(r, claims) {
      if r.claim in claims {
        MatchesExactly(claims[r.claim], r.value);
      }
    }
  }

  // ----- space-separated lists -----

  predicate IsWord(w: string) {
    w != [] && forall c <- w :: !IsSpace(c)
  }

  lemma {:induction false} FieldsOfWord(w: string, rest: string)
    requires IsWord(w) && (rest == [] || IsSpace(rest[0]))
    ensures Fields(w + rest) == [w] + Fields(rest)
    decreases |w|
  {
    var s := w + rest;
    assert s[1..] == w[1..] + rest && s[0] == w[0] && w[0] in w;
    if |w| == 1 {
      assert w[1..] + rest == rest && w == [s[0]];
      assert |s| > 1 ==> s[1] == rest[0];
    } else {
      FieldsOfWord(w[1..], rest);
      assert !IsSpace(s[1]) by { assert s[1] == w[1] && w[1] in w; }
      assert w == [w[0]] + w[1..];
    }
  }

  /** A claim that lists words separated by single spaces matches exactly its words
      (and, read as one string, itself). */
  lemma {:induction false} FieldsOfJoin(words: seq<string>)
    requires forall w <- words :: IsWord(w)
    ensures Fields(Join(words, ' ')) == words
  {
    if |words| == 1 {
      FieldsOfWord(words[0], []);
      assert words[0] + [] == words[0];
    } else if |words| > 1 {
      var rest := [' '] + Join(words[1..], ' ');
      FieldsOfWord(words[0], rest);
      FieldsOfJoin(words[1..]);
      assert rest[1..] == Join(words[1..], ' ');
      assert Join(words, ' ') == words[0] + rest;
    }
  }

  lemma SpaceListMatches(words: seq<string>, expected: string)
    requires forall w <- words :: IsWord(w)
    ensures Matches(Str(Join(words, ' ')), expected) <==> expected in words || expected == Join(words, ' ')
  {
    FieldsOfJoin(words);
  }

  function Words(words: seq<string>): seq<Claim> {
    seq(|words|, i requires 0 <= i < |words| => Str(words[i]))
  }

  /** Main result: a list of words gets a user the same roles as a JSON array and as one string with
      spaces between, for rules that ask for a word. */
  lemma SameWordsSameRoles(rules: seq<Rule>, defaults: seq<string>, claims: Claims, name: string, words: seq<string>,
                           roles: seq<string>, roles': seq<string>)
    requires forall w <- words :: IsWord(w)
    requires forall r <- rules | r.claim == name :: IsWord(r.value)
    requires IsMapping(rules, defaults, claims[name := Arr(Words(words))], roles)
    requires IsMapping(rules, defaults, claims[name := Str(Join(words, ' '))], roles')
    ensures forall role :: role in roles <==> role in roles'
  {
    var a, b := claims[name := Arr(Words(words))], claims[name := Str(Join(words, ' '))];
    forall r <- rules ensures RuleMatches(r, a) <==> RuleMatches(r, b) {
      if r.claim == name {
        SameWordsMatch(words, r.value);
      }
    }
    assert SomeRuleMatches(rules, a) <==> SomeRuleMatches(rules, b);
    RolesAreJustified(rules, rules, defaults, a, roles, roles);
    RolesAreJustified(rules, rules, defaults, b, roles', roles');
  }

  lemma SameWordsMatch(words: seq<string>, expected: string)
    requires IsWord(expected) && forall w <- words :: IsWord(w)
    ensures Matches(Arr(Words(words)), expected) <==> Matches(Str(Join(words, ' ')), expected)
    ensures Matches(Arr(Words(words)), expected) <==> expected in words
  {
    SpaceListMatches(words, expected);
    if expected in words {
      var i :| 0 <= i < |words| && words[i] == expected;
      assert Words(words)[i] == Str(expected);
    }
    if expected == Join(words, ' ') {
      FieldsOfWord(expected, []);
      assert expected + [] == expected;
      FieldsOfJoin(words);
    }
  }

  /** Splitting at any white space splits into the words on either side; with FieldsOfWord this says
      what the words of every string are. */
  lemma {:induction false} FieldsSplit(a: string, space: char, b: string)
    requires IsSpace(space)
    ensures Fields(a + [space] + b) == Fields(a) + Fields(b)
  {
    var s := a + [space] + b;
    if a == [] {
      assert s[1..] == b;
    } else {
      assert s[1..] == a[1..] + [space] + b && s[0] == a[0];
      FieldsSplit(a[1..], space, b);
      if |a| > 1 {
        assert s[1] == a[1];
        if !IsSpace(a[1]) {
          NonEmptyFields(a[1..]);
        }
      }
    }
  }

  lemma {:induction false} NonEmptyFields(s: string)
    requires s != [] && !IsSpace(s[0])
    ensures Fields(s) != []
  {
  }
}
