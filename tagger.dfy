/**
  `autoTag` of server/parsers.ts: a keyword classifier over a fixed table
  of eight categories. A category applies when one of its keywords occurs,
  as a substring, in the lower-cased text `title + " " + content`; the
  applying categories are collected in a `Set` in table order, and a text
  that matches none is tagged `General`.
*/
module Tagger {
  import opened JsString

  datatype Category = Category(name: string, keywords: seq<string>)

  /** The keyword table, in the insertion order of the object literal. */
  const CategoryKeywords: seq<Category> := [
    Category("Technology", ["tech", "software", "ai", "machine learning", "code", "programming", "app", "digital", "cyber", "algorithm"]),
    Category("Science", ["science", "research", "study", "experiment", "physics", "chemistry", "biology", "discovery", "scientist"]),
    Category("Business", ["business", "company", "market", "economy", "finance", "startup", "investment", "corporate", "enterprise"]),
    Category("Health", ["health", "medical", "doctor", "disease", "treatment", "wellness", "fitness", "nutrition", "mental health"]),
    Category("Politics", ["politics", "government", "election", "congress", "senate", "president", "law", "policy", "political"]),
    Category("Entertainment", ["movie", "music", "entertainment", "film", "actor", "celebrity", "show", "series", "game"]),
    Category("Sports", ["sports", "game", "team", "player", "championship", "league", "athletic", "competition"]),
    Category("Travel", ["travel", "destination", "journey", "trip", "tourism", "explore", "adventure", "vacation"])
  ]

  const Fallback: string := "General"

  /** The text the keywords are looked up in. */
  function TagText(title: string, content: string): string {
    Lower(title + " " + content)
  }

  /** `keywords.some((keyword) => text.includes(keyword))`. */
  predicate Matches(text: string, cat: Category) {
    exists j :: 0 <= j < |cat.keywords| && Contains(text, cat.keywords[j])
  }

  /** The names of the categories that match, in table order. */
  function MatchedNames(text: string, cats: seq<Category>): seq<string> {
    if |cats| == 0 then []
    else
      var last := cats[|cats| - 1];
      MatchedNames(text, cats[..|cats| - 1]) + (if Matches(text, last) then [last.name] else [])
  }

  /** The result of `autoTag`. */
  function Tags(title: string, content: string): seq<string> {
    var matched := MatchedNames(TagText(title, content), CategoryKeywords);
    if |matched| > 0 then matched else [Fallback]
  }

  /** `autoTag`: the `for...of` loop over the table fills the set of tags;
      a `Set` keeps the insertion order and adds a name at most once. */
  method AutoTag(title: string, content: string) returns (result: seq<string>)
    ensures result == Tags(title, content)
  {
    var text := Lower(title + " " + content);
    var tags: seq<string> := [];
    for i := 0 to |CategoryKeywords|
      invariant tags == MatchedNames(text, CategoryKeywords[..i])
    {
      var cat := CategoryKeywords[i];
      assert CategoryKeywords[..i + 1][..i] == CategoryKeywords[..i];
      if Matches(text, cat) {
        if cat.name !in tags {
          tags := tags + [cat.name];
        } else {
          NameNotYetMatched(text, i);
        }
      }
    }
    assert CategoryKeywords[..|CategoryKeywords|] == CategoryKeywords;
    if |tags| > 0 {
      result := tags;
    } else {
      result := [Fallback];
    }
  }

  // ---------------------------------------------------------------------
  // The matched names, for any table.

  predicate DistinctNames(cats: seq<Category>) {
    forall i, j :: 0 <= i < j < |cats| ==> cats[i].name != cats[j].name
  }

  predicate NoDuplicates(s: seq<string>) {
    forall i, j :: 0 <= i < j < |s| ==> s[i] != s[j]
  }

  /** The positions, in the table, of the categories that match. */
  function MatchedIndices(text: string, cats: seq<Category>): seq<nat> {
    if |cats| == 0 then []
    else
      MatchedIndices(text, cats[..|cats| - 1]) + (if Matches(text, cats[|cats| - 1]) then [|cats| - 1] else [])
  }

  /** The matched names are the names of the matching categories and of no
      other, listed by increasing position in the table. */
  lemma {:induction false} MatchedIndicesSpec(text: string, cats: seq<Category>)
    ensures var idx, names := MatchedIndices(text, cats), MatchedNames(text, cats);
      && |idx| == |names|
      && (forall k :: 0 <= k < |idx| ==> idx[k] < |cats| && names[k] == cats[idx[k]].name && Matches(text, cats[idx[k]]))
      && (forall k1, k2 :: 0 <= k1 < k2 < |idx| ==> idx[k1] < idx[k2])
      && (forall i :: 0 <= i < |cats| && Matches(text, cats[i]) ==> i in idx)
  {
    if |cats| > 0 {
      var init := cats[..|cats| - 1];
      MatchedIndicesSpec(text, init);
      assert forall i :: 0 <= i < |init| ==> init[i] == cats[i];
    }
  }

  /** A name is matched exactly when some category of that name matches. */
  lemma MatchedNamesMember(text: string, cats: seq<Category>, n: string)
    ensures n in MatchedNames(text, cats) <==>
      exists i :: 0 <= i < |cats| && cats[i].name == n && Matches(text, cats[i])
  {
    MatchedIndicesSpec(text, cats);
    var idx, names := MatchedIndices(text, cats), MatchedNames(text, cats);
    if n in names {
      var k :| 0 <= k < |names| && names[k] == n;
      assert cats[idx[k]].name == n && Matches(text, cats[idx[k]]);
    }
    if exists i :: 0 <= i < |cats| && cats[i].name == n && Matches(text, cats[i]) {
      var i :| 0 <= i < |cats| && cats[i].name == n && Matches(text, cats[i]);
      var k :| 0 <= k < |idx| && idx[k] == i;
      assert names[k] == n;
    }
  }

  /** With distinct category names, no name is matched twice. */
  lemma MatchedNamesNoDuplicates(text: string, cats: seq<Category>)
    requires DistinctNames(cats)
    ensures NoDuplicates(MatchedNames(text, cats))
  {
    MatchedIndicesSpec(text, cats);
  }

  // ---------------------------------------------------------------------
  // The table.

  lemma TableNamesDistinct()
    ensures DistinctNames(CategoryKeywords)
    ensures forall i :: 0 <= i < |CategoryKeywords| ==> CategoryKeywords[i].name != Fallback
  {
  }

  /** Inside the loop: a category's name is not yet among the tags when
      the loop reaches it, so `Set.add` always appends. */
  lemma NameNotYetMatched(text: string, i: nat)
    requires i < |CategoryKeywords|
    ensures CategoryKeywords[i].name !in MatchedNames(text, CategoryKeywords[..i])
  {
    TableNamesDistinct();
    MatchedNamesMember(text, CategoryKeywords[..i], CategoryKeywords[i].name);
  }

  // ---------------------------------------------------------------------
  // Properties of autoTag.

  /** A category is a tag exactly when one of its keywords occurs in the
      lower-cased text; `General` is a tag exactly when none matches. */
  lemma TagsMembership(title: string, content: string)
    ensures var text := TagText(title, content);
      && (forall i :: 0 <= i < |CategoryKeywords| ==>
            (CategoryKeywords[i].name in Tags(title, content) <==> Matches(text, CategoryKeywords[i])))
      && (Fallback in Tags(title, content) <==>
            forall i :: 0 <= i < |CategoryKeywords| ==> !Matches(text, CategoryKeywords[i]))
  {
    var text := TagText(title, content);
    TableNamesDistinct();
    forall i | 0 <= i < |CategoryKeywords|
      ensures CategoryKeywords[i].name in Tags(title, content) <==> Matches(text, CategoryKeywords[i])
    {
      MatchedNamesMember(text, CategoryKeywords, CategoryKeywords[i].name);
      if |MatchedNames(text, CategoryKeywords)| == 0 {
        assert CategoryKeywords[i].name !in MatchedNames(text, CategoryKeywords);
      }
    }
    MatchedNamesMember(text, CategoryKeywords, Fallback);
    if |MatchedNames(text, CategoryKeywords)| > 0 {
      var n := MatchedNames(text, CategoryKeywords)[0];
      MatchedNamesMember(text, CategoryKeywords, n);
    }
  }

  /** The result is never empty, and it is exactly `["General"]` when no
      category matches. */
  lemma TagsFallback(title: string, content: string)
    ensures |Tags(title, content)| >= 1
    ensures Tags(title, content) == [Fallback] <==>
      forall i :: 0 <= i < |CategoryKeywords| ==> !Matches(TagText(title, content), CategoryKeywords[i])
  {
    var text := TagText(title, content);
    TableNamesDistinct();
    var matched := MatchedNames(text, CategoryKeywords);
    MatchedNamesMember(text, CategoryKeywords, Fallback);
    if |matched| > 0 {
      MatchedNamesMember(text, CategoryKeywords, matched[0]);
    } else {
      forall i | 0 <= i < |CategoryKeywords|
        ensures !Matches(text, CategoryKeywords[i])
      {
        MatchedNamesMember(text, CategoryKeywords, CategoryKeywords[i].name);
      }
    }
  }

  /** No tag appears twice, and the tags come in table order. */
  lemma TagsOrdered(title: string, content: string)
    ensures NoDuplicates(Tags(title, content))
    ensures |MatchedNames(TagText(title, content), CategoryKeywords)| > 0 ==>
      var idx := MatchedIndices(TagText(title, content), CategoryKeywords);
      && |idx| == |Tags(title, content)|
      && (forall k :: 0 <= k < |idx| ==> idx[k] < |CategoryKeywords| && Tags(title, content)[k] == CategoryKeywords[idx[k]].name)
      && (forall k1, k2 :: 0 <= k1 < k2 < |idx| ==> idx[k1] < idx[k2])
  {
    var text := TagText(title, content);
    TableNamesDistinct();
    MatchedNamesNoDuplicates(text, CategoryKeywords);
    MatchedIndicesSpec(text, CategoryKeywords);
  }

  /** Only the lower-cased inputs matter. */
  lemma TagsCaseInsensitive(title: string, content: string)
    ensures Tags(Lower(title), Lower(content)) == Tags(title, content)
  {
    LowerConcat(title, " ");
    LowerConcat(title + " ", content);
    LowerConcat(Lower(title), " ");
    LowerConcat(Lower(title) + " ", Lower(content));
    LowerIdempotent(title);
    LowerIdempotent(content);
    assert Lower(" ") == " ";
  }

  // ---------------------------------------------------------------------
  // The cases of server/documents.test.ts.

  /** A keyword at a known position of the text makes its category a tag. */
  lemma KeywordAt(title: string, content: string, c: nat, j: nat, at: nat)
    requires c < |CategoryKeywords| && j < |CategoryKeywords[c].keywords|
    requires OccursAt(TagText(title, content), CategoryKeywords[c].keywords[j], at)
    ensures CategoryKeywords[c].name in Tags(title, content)
  {
    TagsMembership(title, content);
  }

  /** An article about machine learning is tagged `Technology`. */
  lemma TechnologyExample()
    ensures "Technology" in Tags("AI Article", "This is about machine learning and algorithms")
  {
    var t := TagText("AI Article", "This is about machine learning and algorithms");
    assert t[..2] == "ai";
    KeywordAt("AI Article", "This is about machine learning and algorithms", 0, 2, 0);
  }

  /** Health tips are tagged `Health`. */
  lemma HealthExample()
    ensures "Health" in Tags("Health Tips", "Medical advice for wellness and fitness")
  {
    var t := TagText("Health Tips", "Medical advice for wellness and fitness");
    assert t[..6] == "health";
    KeywordAt("Health Tips", "Medical advice for wellness and fitness", 3, 0, 0);
  }

  /** A physics study is tagged `Science`. */
  lemma ScienceExample()
    ensures "Science" in Tags("Research Paper", "A study on physics and chemistry experiments")
  {
    var t := TagText("Research Paper", "A study on physics and chemistry experiments");
    assert t[..8] == "research";
    KeywordAt("Research Paper", "A study on physics and chemistry experiments", 1, 1, 0);
  }

  /** A market report is tagged `Business`. */
  lemma BusinessExample()
    ensures "Business" in Tags("Market Report", "The startup raised funding for their new venture")
  {
    var t := TagText("Market Report", "The startup raised funding for their new venture");
    assert t[..6] == "market";
    KeywordAt("Market Report", "The startup raised funding for their new venture", 2, 2, 0);
  }

  /** A movie review is tagged `Entertainment`. */
  lemma EntertainmentExample()
    ensures "Entertainment" in Tags("Movie Review", "A great film with amazing actors")
  {
    var t := TagText("Movie Review", "A great film with amazing actors");
    assert t[..5] == "movie";
    KeywordAt("Movie Review", "A great film with amazing actors", 5, 0, 0);
  }

  /** A text about technology in medicine gets more than one tag. */
  lemma MultipleTagsExample()
    ensures |Tags("Tech Health", "AI in medical research and healthcare technology")| > 1
  {
    var t := TagText("Tech Health", "AI in medical research and healthcare technology");
    assert t[..4] == "tech";
    assert t[5..11] == "health";
    KeywordAt("Tech Health", "AI in medical research and healthcare technology", 0, 0, 0);
    KeywordAt("Tech Health", "AI in medical research and healthcare technology", 3, 0, 5);
    TagsOrdered("Tech Health", "AI in medical research and healthcare technology");
  }

  lemma TagsCaseExample()
    ensures Tags("TECH", "SOFTWARE AND AI") == Tags("tech", "software and ai")
  {
    assert Lower("TECH" + " " + "SOFTWARE AND AI") == "tech" + " " + "software and ai";
    LowerIdempotent("TECH" + " " + "SOFTWARE AND AI");
  }
}
