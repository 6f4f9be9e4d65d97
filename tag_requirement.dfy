/** A Terraforming Mars card requirement that holds for a card carrying a
    given tag. Tags are an enumeration compared by identity, modelled as an
    arbitrary type with equality; a card is its list of tags, and a card
    reference that may be `null` is an `Option`. */
module TerraformingMars {
  import opened Wrappers

  datatype Card<Tag> = Card(tags: seq<Tag>)

  datatype TagOnCardRequirement<Tag> = TagOnCardRequirement(tag: Tag)

  /** The specification: the card exists and carries the tag. */
  predicate HasTag<Tag(==)>(tag: Tag, card: Option<Card<Tag>>)
  {
    card.Some? && tag in card.value.tags
  }

  /** `testCondition(card)`: false for `null`, otherwise a scan of the
      card's tags that stops at the first one equal to the required tag. */
  method TestCondition<Tag(==)>(req: TagOnCardRequirement<Tag>, card: Option<Card<Tag>>)
    returns (r: bool)
    ensures r <==> HasTag(req.tag, card)
    ensures card.None? ==> !r
  {
    if card.None? {
      return false;
    }
    var tags := card.value.tags;
    for i := 0 to |tags|
      invariant req.tag !in tags[..i]
    {
      if tags[i] == req.tag {
        return true;
      }
    }
    assert tags[..|tags|] == tags;
    return false;
  }

  /** Only which tags a card carries matters: not their order, nor how often
      each occurs. */
  lemma HasTagIgnoresOrderAndDuplicates<Tag>(tag: Tag, a: seq<Tag>, b: seq<Tag>)
    requires (set x | x in a) == (set x | x in b)
    ensures HasTag(tag, Some(Card(a))) == HasTag(tag, Some(Card(b)))
  {
    var sa, sb := set x | x in a, set x | x in b;
    if tag in a {
      assert tag in sa;
    }
    if tag in b {
      assert tag in sb;
    }
  }

  /** Adding tags to a card, anywhere, never makes a met requirement fail. */
  lemma HasTagMonotone<Tag>(tag: Tag, tags: seq<Tag>, before: seq<Tag>, after: seq<Tag>)
    requires HasTag(tag, Some(Card(tags)))
    ensures HasTag(tag, Some(Card(before + tags + after)))
  {
    var i :| 0 <= i < |tags| && tags[i] == tag;
    assert (before + tags + after)[|before| + i] == tag;
  }

  /** `copy()` returns the requirement itself. */
  function Copy<Tag>(req: TagOnCardRequirement<Tag>): TagOnCardRequirement<Tag>
  {
    req
  }

  /** `equals(o)`: the same object, or another tag requirement with the
      same tag; `null` or an object of another class is not equal. */
  predicate Equals<Tag(==)>(req: TagOnCardRequirement<Tag>, o: Option<TagOnCardRequirement<Tag>>)
    ensures Equals(req, o) <==> o.Some? && o.value.tag == req.tag
  {
    o == Some(req) || (o.Some? && req.tag == o.value.tag)
  }

  const TwoTo31: int := 0x8000_0000
  const TwoTo32: int := 0x1_0000_0000

  /** Java `int` arithmetic: the value reduced into [-2^31, 2^31). */
  function Wrap32(x: int): (w: int)
    ensures -TwoTo31 <= w < TwoTo31
    ensures (w - x) % TwoTo32 == 0
    ensures -TwoTo31 <= x < TwoTo31 ==> w == x
  {
    (x + TwoTo31) % TwoTo32 - TwoTo31
  }

  /** `hashCode()`: `Objects.hash(tag)`, which is `31 * 1` plus the tag's
      own hash code, in `int` arithmetic. The tag's hash code is supplied
      by the caller. */
  function HashCode<Tag>(req: TagOnCardRequirement<Tag>, tagHash: Tag -> int): (h: int)
    ensures -TwoTo31 <= h < TwoTo31
    ensures (h - (31 + tagHash(req.tag))) % TwoTo32 == 0
  {
    Wrap32(31 * 1 + tagHash(req.tag))
  }

  /** Equal requirements have equal hash codes. */
  lemma EqualsHashCode<Tag>(a: TagOnCardRequirement<Tag>, b: TagOnCardRequirement<Tag>, tagHash: Tag -> int)
    requires Equals(a, Some(b))
    ensures HashCode(a, tagHash) == HashCode(b, tagHash)
  {
  }

  /** Equality is symmetric. */
  lemma EqualsSymmetric<Tag>(a: TagOnCardRequirement<Tag>, b: TagOnCardRequirement<Tag>)
    ensures Equals(a, Some(b)) <==> Equals(b, Some(a))
  {
  }

  /** A copy equals the original and hashes the same, and meets the same
      cards. */
  lemma CopyBehavesAlike<Tag>(req: TagOnCardRequirement<Tag>, card: Option<Card<Tag>>, tagHash: Tag -> int)
    ensures Equals(Copy(req), Some(req)) && Equals(req, Some(Copy(req)))
    ensures HashCode(Copy(req), tagHash) == HashCode(req, tagHash)
    ensures HasTag(Copy(req).tag, card) == HasTag(req.tag, card)
  {
  }
}
