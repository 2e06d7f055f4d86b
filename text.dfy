/** String handling in app.py: the default username taken from an e-mail
    address, the search activity's summary, and the shape of a password digest. */
module Text {

  /** `email.split('@')[0]`: everything before the first '@'. */
  function LocalPart(email: string): (r: string)
    ensures r <= email
    ensures '@' !in r
    ensures |r| < |email| ==> email[|r|] == '@'
  {
    if email == [] || email[0] == '@' then []
    else [email[0]] + LocalPart(email[1..])
  }

  /** Python's `sep.join(parts)`. */
  function Join(parts: seq<string>, sep: string): (r: string)
    ensures parts == [] ==> r == []
    ensures |parts| == 1 ==> r == parts[0]
    ensures |parts| > 1 ==> parts[0] + sep <= r
  {
    if parts == [] then []
    else if |parts| == 1 then parts[0]
    else parts[0] + sep + Join(parts[1..], sep)
  }

  /** The `details` of a search activity: the first three ingredients. */
  function SearchDetails(ingredients: seq<string>): (r: string)
    ensures "With: " <= r
  {
    var shown := if |ingredients| <= 3 then ingredients else ingredients[..3];
    "With: " + Join(shown, ", ")
  }

  /** A reference spelling of the summary, one case per number of ingredients. */
  lemma {:induction false} SearchDetailsCases(ingredients: seq<string>)
    ensures |ingredients| == 0 ==> SearchDetails(ingredients) == "With: "
    ensures |ingredients| == 1 ==> SearchDetails(ingredients) == "With: " + ingredients[0]
    ensures |ingredients| == 2 ==>
      SearchDetails(ingredients) == "With: " + ingredients[0] + ", " + ingredients[1]
    ensures |ingredients| >= 3 ==>
      SearchDetails(ingredients) ==
        "With: " + ingredients[0] + ", " + ingredients[1] + ", " + ingredients[2]
  {
    if |ingredients| >= 2 {
      var shown := if |ingredients| <= 3 then ingredients else ingredients[..3];
      var rest := Join(shown[1..], ", ");
      assert Join(shown, ", ") == ingredients[0] + ", " + rest;
      if |ingredients| >= 3 {
        assert shown[1..][1..] == [ingredients[2]];
        assert rest == ingredients[1] + ", " + ingredients[2];
      } else {
        assert shown[1..] == [ingredients[1]];
      }
    }
  }

  /** Ingredients after the third never reach the activity log. */
  lemma SearchDetailsIgnoresRest(ingredients: seq<string>, more: seq<string>)
    requires |ingredients| >= 3
    ensures SearchDetails(ingredients + more) == SearchDetails(ingredients)
  {
    var all := ingredients + more;
    if more == [] {
      assert all == ingredients;
    } else {
      assert all[..3] == ingredients[..3];
      assert |ingredients| == 3 ==> ingredients[..3] == ingredients;
    }
  }

  const HexDigits: string := "0123456789abcdef"

  /** What `hashlib.sha256(...).hexdigest()` returns: 64 lower-case hex digits. */
  predicate IsHexDigest(s: string)
  {
    |s| == 64 && forall k :: 0 <= k < |s| ==> s[k] in HexDigits
  }
}
