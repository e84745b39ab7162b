/**
 * The per-idea action menu: which entries it offers, and the Amazon search link
 * (with the associate tag) that its "Search Amazon" entry opens.
 */
module ActionList {
  import opened Wrappers
  import opened Text
  import opened FormUrlEncoding

  const AmazonBase: string := "https://www.amazon.co.uk/s"
  const AssociateTag: string := "giftgoats-21"

  /** `generateAmazonSearchUrl`: the search page with the query `k=<query>&tag=<associate id>`. */
  function AmazonSearchUrl(searchQuery: string): string {
    AmazonBase + "?" + Serialize([("k", searchQuery), ("tag", AssociateTag)])
  }

  /** The part of a link after the search page address and its `?`. */
  function QueryPart(url: string): string {
    if |url| > |AmazonBase| then url[|AmazonBase| + 1..] else ""
  }

  /** Every search link is the search page followed by `?` and the query. */
  lemma AmazonSearchUrlShape(searchQuery: string)
    ensures var url := AmazonSearchUrl(searchQuery);
      |url| > |AmazonBase| && url[..|AmazonBase| + 1] == "https://www.amazon.co.uk/s?"
      && url == "https://www.amazon.co.uk/s?" + QueryPart(url)
  {
  }

  /**
   * Reading the query back gives exactly two parameters, `k` then `tag`; `k` is the
   * search text whatever characters it holds, and `tag` is always the associate id.
   */
  lemma AmazonSearchQuery(searchQuery: string)
    ensures Parse(QueryPart(AmazonSearchUrl(searchQuery)))
      == Some([("k", searchQuery), ("tag", AssociateTag)])
  {
    var pairs := [("k", searchQuery), ("tag", AssociateTag)];
    assert QueryPart(AmazonSearchUrl(searchQuery)) == Serialize(pairs);
    ParseSerialize(pairs);
  }

  /**
   * The search text appears in the link only in encoded form, which has no `&` and
   * no `=`: it can neither add a parameter nor override the tag.
   */
  lemma AmazonSearchQueryLayout(searchQuery: string)
    ensures AmazonSearchUrl(searchQuery)
      == AmazonBase + "?" + ("k" + "=" + Encode(searchQuery) + "&" + ("tag" + "=" + AssociateTag))
    ensures '&' !in Encode(searchQuery) && '=' !in Encode(searchQuery)
  {
    SerializeTwo(("k", searchQuery), ("tag", AssociateTag));
    EncodedNames();
  }

  lemma SerializeTwo(p: (string, string), q: (string, string))
    ensures Serialize([p, q]) == Encode(p.0) + "=" + Encode(p.1) + "&" + (Encode(q.0) + "=" + Encode(q.1))
  {
    var pieces := SerializedPairs([p, q]);
    assert pieces[1..] == [pieces[1]];
    assert Join(pieces[1..], '&') == pieces[1];
    assert Serialize([p, q]) == pieces[0] + ['&'] + pieces[1];
    assert pieces[0] == SerializePair(p) && pieces[1] == SerializePair(q);
  }

  lemma EncodedNames()
    ensures Encode("k") == "k" && Encode("tag") == "tag" && Encode(AssociateTag) == AssociateTag
  {
    assert Encode("k") == "k" by { EncodeAscii("k"); }
    assert Encode("tag") == "tag" by { EncodeAscii("tag"); }
    assert Encode(AssociateTag) == AssociateTag by { EncodeAscii(AssociateTag); }
  }

  /** Letters, digits and `-` pass through the serializer unchanged. */
  lemma {:induction false} EncodeAscii(s: string)
    requires forall i | 0 <= i < |s| :: 'a' <= s[i] <= 'z' || '0' <= s[i] <= '9' || s[i] == '-'
    ensures Encode(s) == s
  {
    if s != [] {
      EncodeAscii(s[1..]);
      assert Utf8String(s) == [s[0] as int] + Utf8String(s[1..]);
      assert SerializeByte(s[0] as int) == [s[0]];
    }
  }

  // ---------------------------------------------------------------- the menu

  datatype MenuAction =
    | ToggleBought(ideaId: string)
    | EditUrl(ideaId: string, currentUrl: Option<string>)
    | SearchAmazon(searchQuery: string)
    | Delete(ideaId: string)

  datatype MenuItem = MenuItem(text: string, action: MenuAction)

  /** The page an entry opens in a new tab, if any. */
  function OpensTab(a: MenuAction): (r: Option<string>)
    ensures r.Some? <==> a.SearchAmazon?
    ensures a.SearchAmazon? ==> r == Some(AmazonSearchUrl(a.searchQuery))
  {
    if a.SearchAmazon? then Some(AmazonSearchUrl(a.searchQuery)) else None
  }

  /** JavaScript truthiness of a `string | null`: absent and `""` are both false. */
  predicate Truthy(s: Option<string>) {
    s.Some? && s.value != ""
  }

  /** The entries of the action menu, top to bottom. */
  function MenuItems(ideaId: string, ideaName: string, isBought: bool, url: Option<string>)
    : (items: seq<MenuItem>)
    ensures |items| == 4
    ensures items[0].action == ToggleBought(ideaId)
    ensures items[1].action == EditUrl(ideaId, url)
    ensures items[2] == MenuItem("Search Amazon", SearchAmazon(ideaName))
    ensures items[3] == MenuItem("Delete", Delete(ideaId))
  {
    (if !isBought then [MenuItem("Mark as bought", ToggleBought(ideaId))] else [])
    + (if isBought then [MenuItem("Mark as not bought", ToggleBought(ideaId))] else [])
    + [MenuItem(if Truthy(url) then "Edit Link" else "Add Link", EditUrl(ideaId, url))]
    + [MenuItem("Search Amazon", SearchAmazon(ideaName))]
    + [MenuItem("Delete", Delete(ideaId))]
  }

  function Labels(items: seq<MenuItem>): (r: seq<string>)
    ensures |r| == |items| && forall k | 0 <= k < |r| :: r[k] == items[k].text
  {
    if items == [] then [] else [items[0].text] + Labels(items[1..])
  }

  /** Exactly one of the two toggle entries is offered, chosen by `isBought`. */
  lemma ToggleEntry(ideaId: string, ideaName: string, isBought: bool, url: Option<string>)
    ensures var labels := Labels(MenuItems(ideaId, ideaName, isBought, url));
      ("Mark as bought" in labels <==> !isBought)
      && ("Mark as not bought" in labels <==> isBought)
  {
    var items := MenuItems(ideaId, ideaName, isBought, url);
    var labels := Labels(items);
    var toggle := if isBought then "Mark as not bought" else "Mark as bought";
    assert items[0].text == toggle;
    assert |labels[1]| < 10 && |labels[2]| == 13 && |labels[3]| == 6;
    assert |"Mark as bought"| == 14 && |"Mark as not bought"| == 18;
    assert labels == [labels[0], labels[1], labels[2], labels[3]];
  }

  /** The link entry reads "Edit Link" for a non-empty link, "Add Link" for none or `""`. */
  lemma LinkEntry(ideaId: string, ideaName: string, isBought: bool, url: Option<string>)
    ensures var caption := MenuItems(ideaId, ideaName, isBought, url)[1].text;
      (caption == "Edit Link" <==> url.Some? && url.value != "")
      && (caption == "Add Link" <==> url.None? || url.value == "")
  {
  }
}
