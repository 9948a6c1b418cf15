/** Case-insensitive literal search, the model of the title filter's `$regex` with option `i`. */
module Text {

  /** ASCII case folding: upper-case letters map to lower case, every other character to itself. */
  function Lower(c: char): (d: char)
    ensures 'A' <= c <= 'Z' ==> 'a' <= d <= 'z' && d as int - c as int == 32
    ensures !('A' <= c <= 'Z') ==> d == c
  {
    if 'A' <= c <= 'Z' then (c as int + 32) as char else c
  }

  function LowerString(s: string): (r: string)
    ensures |r| == |s|
    ensures forall i :: 0 <= i < |s| ==> r[i] == Lower(s[i])
  {
    seq(|s|, i requires 0 <= i < |s| => Lower(s[i]))
  }

  /** `p` occurs in `s` starting at position `k`. */
  predicate OccursAt(s: string, p: string, k: int) {
    0 <= k && k + |p| <= |s| && s[k..k + |p|] == p
  }

  /** Left-to-right search for `p` inside `s`. */
  function HasInfix(s: string, p: string): (r: bool)
    ensures r <==> exists k :: OccursAt(s, p, k)
    decreases |s|
  {
    if |p| > |s| then
      assert forall k :: !OccursAt(s, p, k);
      false
    else if s[..|p|] == p then
      assert OccursAt(s, p, 0);
      true
    else
      var r := HasInfix(s[1..], p);
      assert r ==> exists k :: OccursAt(s, p, k) by {
        if r {
          var k :| OccursAt(s[1..], p, k);
          assert s[1..][k..k + |p|] == s[k + 1..k + 1 + |p|];
          assert OccursAt(s, p, k + 1);
        }
      }
      assert (exists k :: OccursAt(s, p, k)) ==> r by {
        if exists k :: OccursAt(s, p, k) {
          var k :| OccursAt(s, p, k);
          assert k != 0;
          assert s[1..][k - 1..k - 1 + |p|] == s[k..k + |p|];
          assert OccursAt(s[1..], p, k - 1);
        }
      }
      r
  }

  /** `search` appears in `title` at offset `k` when characters are compared ignoring case. */
  predicate FoldMatchAt(title: string, search: string, k: int) {
    0 <= k && k + |search| <= |title|
    && forall i :: 0 <= i < |search| ==> Lower(title[k + i]) == Lower(search[i])
  }

  /** `title` contains `search` once both are case folded: the search folds both strings and then
      looks for a plain infix. */
  function ContainsIgnoreCase(title: string, search: string): (r: bool)
    ensures r <==> exists k :: FoldMatchAt(title, search, k)
  {
    FoldedOccurrence(title, search);
    HasInfix(LowerString(title), LowerString(search))
  }

  /** An occurrence in the folded strings is exactly a case-insensitive occurrence in the originals. */
  lemma FoldedOccurrence(title: string, search: string)
    ensures forall k :: OccursAt(LowerString(title), LowerString(search), k) <==> FoldMatchAt(title, search, k)
  {
    var lt, ls := LowerString(title), LowerString(search);
    forall k
      ensures OccursAt(lt, ls, k) <==> FoldMatchAt(title, search, k)
    {
      if 0 <= k && k + |search| <= |title| {
        if OccursAt(lt, ls, k) {
          forall i | 0 <= i < |search|
            ensures Lower(title[k + i]) == Lower(search[i])
          {
            assert lt[k..k + |ls|][i] == lt[k + i];
          }
        }
        if FoldMatchAt(title, search, k) {
          assert lt[k..k + |ls|] == ls;
        }
      }
    }
  }

  /** The characters that `$regex` would give a meaning other than themselves. */
  const RegexMeta: set<char> := {'.', '^', '$', '*', '+', '?', '(', ')', '[', ']', '{', '}', '|', '\\'}

  /** A search string that a regex engine reads as the literal text it spells. */
  predicate IsLiteralPattern(s: string) {
    forall i :: 0 <= i < |s| ==> s[i] !in RegexMeta
  }

  /** Folding case twice is folding it once, so the search is insensitive to the case of `search`. */
  lemma {:induction false} SearchIgnoresCase(title: string, search: string)
    ensures ContainsIgnoreCase(title, search) == ContainsIgnoreCase(title, LowerString(search))
    ensures ContainsIgnoreCase(title, search) == ContainsIgnoreCase(LowerString(title), search)
  {
    LowerIdempotent(search);
    LowerIdempotent(title);
  }

  lemma {:induction false} LowerIdempotent(s: string)
    ensures LowerString(LowerString(s)) == LowerString(s)
  {
    var l := LowerString(s);
    forall i | 0 <= i < |s|
      ensures LowerString(l)[i] == l[i]
    {
      assert l[i] == Lower(s[i]);
    }
  }

  /** The empty search matches every title. */
  lemma EmptySearchMatchesAll(title: string)
    ensures ContainsIgnoreCase(title, "")
  {
    assert OccursAt(LowerString(title), LowerString(""), 0);
  }

  /** The worked example of the title search: "Buy Milk" is found by "milk". */
  lemma BuyMilkExample()
    ensures ContainsIgnoreCase("Buy Milk", "milk")
    ensures !ContainsIgnoreCase("Buy Milk", "milky")
  {
    var l := LowerString("Buy Milk");
    assert l == "buy milk";
    assert LowerString("milk") == "milk";
    assert OccursAt(l, "milk", 4);
    assert LowerString("milky") == "milky";
    forall k | 0 <= k && k + 5 <= |l|
      ensures !OccursAt(l, "milky", k)
    {
      assert l[k..k + 5][4] == l[k + 4] != 'y';
    }
  }
}
