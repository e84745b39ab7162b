/**
 * One giftee on the dashboard: its own copy of the idea list, updated after each
 * database call, and the "bought / ideas" summary beside the name.
 */
module GifteeRow {
  import opened Wrappers
  import opened Text
  import opened Records
  import opened IdeaLists

  /** The summary text `- <bought> bought, <unbought> idea(s)`. */
  function Summary(ideas: seq<Idea>): string {
    "- " + NatToString(BoughtCount(ideas)) + " bought, " + NatToString(UnboughtCount(ideas))
      + " idea" + Plural(UnboughtCount(ideas))
  }

  lemma DigitsHaveNoSpace(s: string)
    requires AllDigits(s)
    ensures ' ' !in s
  {
  }

  /** The summary's layout with its spaces written out as separators. */
  lemma SummaryLayout(nb: string, nu: string, tail: string)
    ensures "- " + nb + " bought, " + nu + " " + tail
      == "-" + ([' '] + (nb + ([' '] + ("bought," + ([' '] + (nu + ([' '] + tail)))))))
  {
    assert "- " == "-" + [' '];
    assert " bought, " == [' '] + "bought," + [' '];
  }

  /**
   * The summary reads, word by word, `-`, the bought count, `bought,`, the count of
   * ideas still to buy, and `idea` with its plural ending.
   */
  lemma SummaryWords(ideas: seq<Idea>)
    ensures Split(Summary(ideas), ' ')
      == ["-", NatToString(BoughtCount(ideas)), "bought,", NatToString(UnboughtCount(ideas)),
          "idea" + Plural(UnboughtCount(ideas))]
  {
    var nb, nu := NatToString(BoughtCount(ideas)), NatToString(UnboughtCount(ideas));
    var tail := "idea" + Plural(UnboughtCount(ideas));
    assert Summary(ideas) == "- " + nb + " bought, " + nu + " " + tail;
    SummaryLayout(nb, nu, tail);
    assert ' ' !in nb && ' ' !in nu && ' ' !in tail && ' ' !in "bought," && ' ' !in "-" by {
      DigitsHaveNoSpace(nb);
      DigitsHaveNoSpace(nu);
    }
    SplitFive("-", nb, "bought,", nu, tail, ' ');
  }

  /** Two lists with the same summary have the same bought count and the same count still to buy. */
  lemma SummaryShowsCounts(a: seq<Idea>, b: seq<Idea>)
    requires Summary(a) == Summary(b)
    ensures BoughtCount(a) == BoughtCount(b) && UnboughtCount(a) == UnboughtCount(b)
  {
    SummaryWords(a);
    SummaryWords(b);
    DigitsValueOfNatToString(BoughtCount(a));
    DigitsValueOfNatToString(BoughtCount(b));
    DigitsValueOfNatToString(UnboughtCount(a));
    DigitsValueOfNatToString(UnboughtCount(b));
  }

  /**
   * Replacing an entry by a row that is bought never lowers the bought count: marking
   * as bought only ever sets `purchased_at`.
   */
  lemma {:induction false} ReplaceWithBoughtKeepsBought(ideas: seq<Idea>, id: string, updated: Idea)
    requires Bought(updated)
    ensures BoughtCount(ReplaceById(ideas, id, updated)) >= BoughtCount(ideas)
    ensures forall k | 0 <= k < |ideas| && ideas[k].id == id :: Bought(ReplaceById(ideas, id, updated)[k])
  {
    if ideas != [] {
      ReplaceWithBoughtKeepsBought(ideas[1..], id, updated);
      assert ReplaceById(ideas, id, updated)[1..] == ReplaceById(ideas[1..], id, updated);
    }
  }

  /** The component's state: the giftee it shows and its list of ideas. */
  class Row {
    const giftee: Giftee
    var ideas: seq<Idea>

    /** The list starts as `g.ideas || []`. */
    constructor (g: Giftee)
      ensures giftee == g && ideas == g.ideas.GetOr([])
    {
      giftee := g;
      ideas := g.ideas.GetOr([]);
    }

    function Text(): string
      reads this
    {
      Summary(ideas)
    }

    /**
     * `handleAddIdea`: asks the database to add the idea under this giftee and appends the
     * row it returns; a failed call leaves the list as it was.
     */
    method HandleAddIdea(ideaName: string, created: Option<Idea>) returns (request: (string, string))
      modifies this
      ensures request == (giftee.id, ideaName)
      ensures ideas == if created.Some? then old(ideas) + [created.value] else old(ideas)
    {
      request := (giftee.id, ideaName);
      if created.Some? {
        ideas := ideas + [created.value];
      }
    }

    /** `handleMarkAsBought`: always sends `purchased_at = now`, then replaces the matching entry. */
    method HandleMarkAsBought(ideaId: string, now: Timestamp, updated: Option<Idea>) returns (patch: IdeaPatch)
      modifies this
      ensures patch == SetPurchasedAt(Some(now))
      ensures ideas == if updated.Some? then ReplaceById(old(ideas), ideaId, updated.value) else old(ideas)
    {
      patch := SetPurchasedAt(Some(now));
      if updated.Some? {
        ideas := ReplaceById(ideas, ideaId, updated.value);
      }
    }

    /** `handleDeleteIdea`: after a successful delete, drops the matching entry. */
    method HandleDeleteIdea(ideaId: string, deleted: bool)
      modifies this
      ensures ideas == if deleted then RemoveById(old(ideas), ideaId) else old(ideas)
    {
      if deleted {
        ideas := RemoveById(ideas, ideaId);
      }
    }
  }
}
