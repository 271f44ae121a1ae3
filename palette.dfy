/** The node colour rule shared by the graph views (main.py:102, 288-292,
    315-321, 338): a topic's category selects a colour from a fixed palette. */
module Palette {
  import opened Strings
  import opened Graphs
  import Topics
  import opened Options

  /** `category_colors` (main.py:13-34). */
  const CategoryColors: map<string, string> := map[
    "Language" := "#87CEEB",
    "Framework" := "#98FB98",
    "Tool" := "#F08080",
    "Lesson" := "#FFE4B5",
    "Subject" := "#FFFFE0",
    "Library" := "#FFB6C1",
    "Project" := "#E0FFFF",
    "Concept" := "#20B2AA",
    "Method" := "#DDA0DD",
    "Database" := "#B0C4DE",
    "Database Type" := "#D2B48C",
    "Idea Hub" := "#CD5C5C",
    "Query Language" := "#9370DB",
    "Area" := "#FFA500",
    "Technology" := "#8A2BE2",
    "Process" := "#C0C0C0",
    "Protocol" := "#DAA520",
    "Component" := "#CD853F",
    "Field" := "#708090",
    "Other" := "#D3D3D3"
  ]

  /** The colour used for a category missing from the palette. */
  const Fallback: string := "#D3D3D3"

  /** The colour of the searched topic. */
  const Highlight: string := "#FFD700"

  /** `topic_categories.get(n, "Other")`. */
  function CategoryOf(cats: map<Topic, string>, n: Topic): string {
    if n in cats then cats[n] else Topics.Other
  }

  /** `category_colors.get(topic_categories.get(n, "Other"), "#D3D3D3")`:
      the palette colour of the topic's category; a topic without a category
      is coloured as "Other", an unknown category gets the fallback colour,
      which is the colour of "Other". */
  function ColorOf(cats: map<Topic, string>, n: Topic): (c: string)
    ensures CategoryOf(cats, n) in CategoryColors ==> c == CategoryColors[CategoryOf(cats, n)]
    ensures CategoryOf(cats, n) !in CategoryColors ==> c == Fallback
    ensures n !in cats ==> c == Fallback
    ensures c in CategoryColors.Values
  {
    var cat := CategoryOf(cats, n);
    assert CategoryColors["Other"] == Fallback;
    if cat in CategoryColors then CategoryColors[cat] else Fallback
  }

  /** The colour list passed to the drawing call, one per node, in node order. */
  function NodeColors(g: Graph, cats: map<Topic, string>): (cs: seq<string>)
    ensures |cs| == |g.nodes|
    ensures forall i :: 0 <= i < |g.nodes| ==> cs[i] == ColorOf(cats, g.nodes[i])
  {
    seq(|g.nodes|, i requires 0 <= i < |g.nodes| => ColorOf(cats, g.nodes[i]))
  }

  /** search_topic's colours (main.py:306-321) for the typed keyword, which
      is stripped first: None ("not found") when it is not a topic; otherwise
      exactly the searched topic is gold and every other topic has its
      category colour. */
  function SearchColors(g: Graph, cats: map<Topic, string>, typed: string): (r: Option<seq<string>>)
    ensures r.None? <==> Strip(typed) !in g.nodes
    ensures r.Some? ==> |r.value| == |g.nodes|
    ensures r.Some? ==> forall i :: 0 <= i < |g.nodes| ==>
      (r.value[i] == Highlight <==> g.nodes[i] == Strip(typed))
    ensures r.Some? ==> forall i :: 0 <= i < |g.nodes| && g.nodes[i] != Strip(typed) ==>
      r.value[i] == ColorOf(cats, g.nodes[i])
  {
    var keyword := Strip(typed);
    if keyword !in g.nodes then None
    else
      assert Highlight !in CategoryColors.Values;
      Some(seq(|g.nodes|, i requires 0 <= i < |g.nodes| =>
        if g.nodes[i] == keyword then Highlight else ColorOf(cats, g.nodes[i])))
  }
}
