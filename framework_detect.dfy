/**
 * `detectCSSFramework`: which CSS frameworks the class attributes of a
 * design's markup suggest. Each framework's test is the pattern
 * class=['"][^'"]*(?:tok1|tok2|...) searched anywhere in the lowercased
 * markup, written here as an explicit scan and proved equal to the
 * pattern's meaning.
 */
module FrameworkDetect {
  import opened Text

  datatype Framework = Tailwind | Bootstrap | Bulma | Foundation | SemanticUi

  /** The name the page uses for a framework. */
  function Name(f: Framework): string
  {
    match f
    case Tailwind => "tailwind"
    case Bootstrap => "bootstrap"
    case Bulma => "bulma"
    case Foundation => "foundation"
    case SemanticUi => "semantic-ui"
  }

  /** The order in which the frameworks are tested. */
  function Rank(f: Framework): nat
  {
    match f
    case Tailwind => 0
    case Bootstrap => 1
    case Bulma => 2
    case Foundation => 3
    case SemanticUi => 4
  }

  /** The alternatives of each framework's pattern. */
  function Tokens(f: Framework): seq<string>
  {
    match f
    case Tailwind => ["bg-", "text-", "p-", "m-", "w-", "h-", "flex", "grid", "border-"]
    case Bootstrap => ["btn", "container", "row", "col-", "nav", "card", "alert"]
    case Bulma => ["button", "container", "columns", "column", "notification", "hero"]
    case Foundation => ["button", "grid-container", "grid-x", "cell", "callout"]
    case SemanticUi => ["ui ", "button", "container", "grid", "segment", "header"]
  }

  predicate IsQuote(c: char)
  {
    c == '\'' || c == '"'
  }

  /** `class=` followed by a quote starts at `i`. */
  predicate ClassOpenAt(s: string, i: int)
  {
    OccursAt(s, "class=", i) && i + 6 < |s| && IsQuote(s[i + 6])
  }

  /** No quote in s[a..b]. */
  predicate QuoteFree(s: string, a: int, b: int)
  {
    0 <= a <= b <= |s| && forall k :: a <= k < b ==> !IsQuote(s[k])
  }

  /** One of the alternatives starts at `j`. */
  predicate TokenAt(s: string, tokens: seq<string>, j: int)
  {
    exists n :: 0 <= n < |tokens| && OccursAt(s, tokens[n], j)
  }

  /** A match of the pattern whose `class=` is at `i` and whose token is at `j`. */
  ghost predicate MatchAt(s: string, tokens: seq<string>, i: int, j: int)
  {
    ClassOpenAt(s, i) && QuoteFree(s, i + 7, j) && TokenAt(s, tokens, j)
  }

  /** What `s.match(/class=['"][^'"]*(?:tokens)/)` reports: some match exists. */
  ghost predicate PatternMatches(s: string, tokens: seq<string>)
  {
    exists i, j :: MatchAt(s, tokens, i, j)
  }

  /** Within an attribute value that runs from `j`: some token before the next quote. */
  function TokenInValue(s: string, tokens: seq<string>, j: nat): bool
    requires j <= |s|
    decreases |s| - j
  {
    if TokenAt(s, tokens, j) then true
    else if j == |s| || IsQuote(s[j]) then false
    else TokenInValue(s, tokens, j + 1)
  }

  /** The value scan finds a token exactly when one starts before the next quote. */
  lemma {:induction false} TokenInValueSpec(s: string, tokens: seq<string>, j: nat)
    requires j <= |s|
    ensures TokenInValue(s, tokens, j) <==> exists k :: QuoteFree(s, j, k) && TokenAt(s, tokens, k)
    decreases |s| - j
  {
    if TokenAt(s, tokens, j) {
      assert QuoteFree(s, j, j);
    } else if j == |s| || IsQuote(s[j]) {
      assert forall k :: QuoteFree(s, j, k) ==> k == j;
    } else {
      TokenInValueSpec(s, tokens, j + 1);
      assert forall k :: QuoteFree(s, j + 1, k) ==> QuoteFree(s, j, k);
      assert forall k :: QuoteFree(s, j, k) && k != j ==> QuoteFree(s, j + 1, k);
    }
  }

  /** The pattern searched from position `i` on. */
  function MatchesFrom(s: string, tokens: seq<string>, i: nat): bool
    requires i <= |s|
    decreases |s| - i
  {
    if i == |s| then false
    else (ClassOpenAt(s, i) && TokenInValue(s, tokens, i + 7)) || MatchesFrom(s, tokens, i + 1)
  }

  /** The search from `i` succeeds exactly when a match has its `class=` at `i` or later. */
  lemma {:induction false} MatchesFromSpec(s: string, tokens: seq<string>, i: nat)
    requires i <= |s|
    ensures MatchesFrom(s, tokens, i) <==> exists a, k :: i <= a && MatchAt(s, tokens, a, k)
    decreases |s| - i
  {
    if i == |s| {
      assert forall a, k :: MatchAt(s, tokens, a, k) ==> a < |s|;
    } else {
      MatchesFromSpec(s, tokens, i + 1);
      var here := ClassOpenAt(s, i) && TokenInValue(s, tokens, i + 7);
      if ClassOpenAt(s, i) {
        TokenInValueSpec(s, tokens, i + 7);
      }
      if here {
        var k :| QuoteFree(s, i + 7, k) && TokenAt(s, tokens, k);
        assert MatchAt(s, tokens, i, k);
      }
      assert (exists k :: MatchAt(s, tokens, i, k)) ==> here;
    }
  }

  /** `s.match(/class=['"][^'"]*(?:tokens)/) !== null`, as an explicit scan. */
  function ScanClassTokens(s: string, tokens: seq<string>): bool
  {
    MatchesFrom(s, tokens, 0)
  }

  /** The explicit scan answers exactly what the pattern means. */
  lemma ScanClassTokensSpec(s: string, tokens: seq<string>)
    ensures ScanClassTokens(s, tokens) <==> PatternMatches(s, tokens)
  {
    MatchesFromSpec(s, tokens, 0);
  }

  /** The `class="` / `class='` gate in front of the five tests. */
  predicate HasClassAttribute(lower: string)
  {
    Contains(lower, "class=\"") || Contains(lower, "class='")
  }

  /** Every match of a pattern passes the gate, so the gate never changes the outcome. */
  lemma GateIsImplied(s: string, tokens: seq<string>)
    requires PatternMatches(s, tokens)
    ensures HasClassAttribute(s)
  {
    var i, j :| MatchAt(s, tokens, i, j);
    assert s[i..i + 7] == s[i..i + 6] + [s[i + 6]];
    if s[i + 6] == '"' {
      assert OccursAt(s, "class=\"", i);
    } else {
      assert OccursAt(s, "class='", i);
    }
  }

  /** Whether the markup (already lowercased) shows the framework's classes. */
  function Uses(lower: string, f: Framework): bool
  {
    ScanClassTokens(lower, Tokens(f))
  }

  /** Strictly increasing in test order, hence free of duplicates. */
  predicate Ordered(fs: seq<Framework>)
  {
    forall i, j :: 0 <= i < j < |fs| ==> Rank(fs[i]) < Rank(fs[j])
  }

  /** The framework tested at position `k` of the sequence of tests. */
  function OfRank(k: nat): (f: Framework)
    requires k < 5
    ensures Rank(f) == k
  {
    [Tailwind, Bootstrap, Bulma, Foundation, SemanticUi][k]
  }

  /** The first `k` tests, each pushing its framework when `used` holds of it. */
  function DetectUpTo(used: Framework -> bool, k: nat): seq<Framework>
    requires k <= 5
  {
    if k == 0 then []
    else DetectUpTo(used, k - 1) + (if used(OfRank(k - 1)) then [OfRank(k - 1)] else [])
  }

  /** The first `k` tests push exactly the used frameworks of rank below `k`, in rank order. */
  lemma {:induction false} DetectUpToSpec(used: Framework -> bool, k: nat)
    requires k <= 5
    ensures forall f :: f in DetectUpTo(used, k) <==> Rank(f) < k && used(f)
    ensures Ordered(DetectUpTo(used, k))
    ensures forall i :: 0 <= i < |DetectUpTo(used, k)| ==> Rank(DetectUpTo(used, k)[i]) < k
  {
    if k > 0 {
      DetectUpToSpec(used, k - 1);
      var f := OfRank(k - 1);
      assert forall g :: Rank(g) < k ==> (Rank(g) == k - 1 && g == f) || Rank(g) < k - 1;
    }
  }

  /** The test of each framework against the lowercased markup. */
  function UsedIn(lower: string): Framework -> bool
  {
    f => Uses(lower, f)
  }

  /** What `detectCSSFramework` returns: the gate, then the five tests in order. */
  function Detected(html: string): seq<Framework>
  {
    var lower := ToLower(html);
    if HasClassAttribute(lower) then DetectUpTo(UsedIn(lower), 5) else []
  }

  /**
   * A framework is reported exactly when its pattern matches the lowercased
   * markup (so the `class=` gate in front never changes the answer), and the
   * report follows the test order, so it holds no duplicates.
   */
  lemma DetectedSpec(html: string)
    ensures forall f :: f in Detected(html) <==> PatternMatches(ToLower(html), Tokens(f))
    ensures Ordered(Detected(html))
    ensures forall i, j :: 0 <= i < j < |Detected(html)| ==> Detected(html)[i] != Detected(html)[j]
  {
    var lower := ToLower(html);
    var r := Detected(html);
    if HasClassAttribute(lower) {
      var used := UsedIn(lower);
      assert r == DetectUpTo(used, 5);
      DetectUpToSpec(used, 5);
      forall f ensures f in r <==> PatternMatches(lower, Tokens(f)) {
        ScanClassTokensSpec(lower, Tokens(f));
        assert used(f) == Uses(lower, f);
        assert Rank(f) < 5;
      }
    } else {
      forall f | PatternMatches(lower, Tokens(f)) ensures false {
        GateIsImplied(lower, Tokens(f));
      }
    }
  }

  /** `detectCSSFramework(html)`: the gate, then one test and push per framework. */
  method DetectCssFramework(html: string) returns (frameworks: seq<Framework>)
    ensures frameworks == Detected(html)
  {
    frameworks := [];
    var lower := ToLower(html);
    if HasClassAttribute(lower) {
      var uses := UsedIn(lower);
      if uses(Tailwind) {
        frameworks := frameworks + [Tailwind];
      }
      assert frameworks == DetectUpTo(uses, 1);
      if uses(Bootstrap) {
        frameworks := frameworks + [Bootstrap];
      }
      assert frameworks == DetectUpTo(uses, 2);
      if uses(Bulma) {
        frameworks := frameworks + [Bulma];
      }
      assert frameworks == DetectUpTo(uses, 3);
      if uses(Foundation) {
        frameworks := frameworks + [Foundation];
      }
      assert frameworks == DetectUpTo(uses, 4);
      if uses(SemanticUi) {
        frameworks := frameworks + [SemanticUi];
      }
    }
  }
}
