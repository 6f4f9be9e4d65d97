/** The console view of an Exploding Kittens observation: one line per
    player hand, marked `>>> ` for the observing player, then the draw pile
    and the discard pile. A deck line lists the visible cards' type names
    separated by commas, with `UNKNOWN` for a card the observer cannot see.
    Which cards are visible and each card type's name are inputs. */
module ExplodingKittens {
  import opened Wrappers

  const Unknown: string := "UNKNOWN"
  const Separator: char := ','

  // ---------------------------------------------------------------------
  // Deck lines.

  /** The text one card contributes: its type name, or `UNKNOWN` for a
      hidden (`null`) card. */
  function Entry<C>(card: Option<C>, name: C -> string): string
  {
    if card.None? then Unknown else name(card.value)
  }

  /** The entries of a list of cards, in list order. */
  function Entries<C>(cards: seq<Option<C>>, name: C -> string): (es: seq<string>)
    ensures |es| == |cards|
    ensures forall i :: 0 <= i < |cards| ==> es[i] == Entry(cards[i], name)
  {
    if |cards| == 0 then [] else [Entry(cards[0], name)] + Entries(cards[1..], name)
  }

  /** `parts` with one `sep` between each two neighbours. */
  function Join(sep: char, parts: seq<string>): string
  {
    if |parts| == 0 then ""
    else if |parts| == 1 then parts[0]
    else parts[0] + [sep] + Join(sep, parts[1..])
  }

  /** What the string builder holds after the loop: every part followed
      by `sep`. */
  function Terminated(sep: char, parts: seq<string>): string
  {
    if |parts| == 0 then "" else Terminated(sep, parts[..|parts| - 1]) + parts[|parts| - 1] + [sep]
  }

  lemma {:induction false} JoinSnoc(sep: char, parts: seq<string>, p: string)
    requires |parts| > 0
    ensures Join(sep, parts + [p]) == Join(sep, parts) + [sep] + p
  {
    if |parts| > 1 {
      assert (parts + [p])[1..] == parts[1..] + [p];
      JoinSnoc(sep, parts[1..], p);
    }
  }

  /** Every part followed by a separator is the joined parts and one
      trailing separator. */
  lemma {:induction false} TerminatedIsJoin(sep: char, parts: seq<string>)
    requires |parts| > 0
    ensures Terminated(sep, parts) == Join(sep, parts) + [sep]
  {
    var n := |parts| - 1;
    if n > 0 {
      TerminatedIsJoin(sep, parts[..n]);
      JoinSnoc(sep, parts[..n], parts[n]);
      assert parts[..n] + [parts[n]] == parts;
    }
  }

  lemma EntriesSnoc<C>(cards: seq<Option<C>>, i: nat, name: C -> string)
    requires i < |cards|
    ensures Entries(cards[..i + 1], name) == Entries(cards[..i], name) + [Entry(cards[i], name)]
  {
    var a, b := Entries(cards[..i + 1], name), Entries(cards[..i], name) + [Entry(cards[i], name)];
    assert |a| == |b|;
    forall k | 0 <= k < |a| ensures a[k] == b[k] {
      assert cards[..i + 1][k] == cards[k];
      if k < i {
        assert cards[..i][k] == cards[k];
      }
    }
  }

  lemma TerminatedSnoc(sep: char, parts: seq<string>, p: string)
    ensures Terminated(sep, parts + [p]) == Terminated(sep, parts) + p + [sep]
  {
    assert (parts + [p])[..|parts|] == parts;
  }

  /** `printDeck(cards)`, without the console write: append each entry and
      a comma, then drop the last character if there is one. */
  method PrintDeck<C>(cards: seq<Option<C>>, name: C -> string) returns (s: string)
    ensures s == Join(Separator, Entries(cards, name))
    ensures |cards| == 0 ==> s == ""
  {
    var sb := "";
    for i := 0 to |cards|
      invariant sb == Terminated(Separator, Entries(cards[..i], name))
    {
      var entry;
      if cards[i].None? {
        entry := Unknown;
      } else {
        entry := name(cards[i].value);
      }
      EntriesSnoc(cards, i, name);
      TerminatedSnoc(Separator, Entries(cards[..i], name), entry);
      sb := sb + entry + [Separator];
    }
    assert cards[..|cards|] == cards;
    ghost var joined := Join(Separator, Entries(cards, name));
    if |cards| > 0 {
      TerminatedIsJoin(Separator, Entries(cards, name));
      assert sb == joined + [Separator];
      assert (joined + [Separator])[..|joined|] == joined;
    }
    if |sb| > 0 {
      sb := sb[..|sb| - 1];
    }
    s := sb;
  }

  /** The pieces of `s` between occurrences of `sep`. */
  function Split(sep: char, s: string): (ps: seq<string>)
    ensures |ps| > 0
  {
    if |s| == 0 then [""]
    else if s[0] == sep then [""] + Split(sep, s[1..])
    else
      var rest := Split(sep, s[1..]);
      [[s[0]] + rest[0]] + rest[1..]
  }

  lemma {:induction false} SplitPlain(sep: char, p: string, rest: string)
    requires sep !in p
    ensures Split(sep, p + rest) == [p + Split(sep, rest)[0]] + Split(sep, rest)[1..]
  {
    if |p| > 0 {
      assert (p + rest)[1..] == p[1..] + rest;
      SplitPlain(sep, p[1..], rest);
      assert [p[0]] + (p[1..] + Split(sep, rest)[0]) == p + Split(sep, rest)[0];
    } else {
      var r := Split(sep, rest);
      assert p + rest == rest && p + r[0] == r[0];
      assert [r[0]] + r[1..] == r;
    }
  }

  /** Round trip: for one or more entries none of which contains the
      separator, splitting a deck line at its commas gives back the entries, so each card keeps its own
      field and none is lost or merged. */
  lemma {:induction false} SplitJoin(sep: char, parts: seq<string>)
    requires |parts| > 0
    requires forall i :: 0 <= i < |parts| ==> sep !in parts[i]
    ensures Split(sep, Join(sep, parts)) == parts
  {
    if |parts| == 1 {
      SplitPlain(sep, parts[0], "");
      assert parts[0] + "" == parts[0];
    } else {
      var tail := Join(sep, parts[1..]);
      SplitJoin(sep, parts[1..]);
      var rest := [sep] + tail;
      assert rest[1..] == tail;
      assert Split(sep, rest) == [""] + parts[1..];
      SplitPlain(sep, parts[0], rest);
      assert Join(sep, parts) == parts[0] + rest;
      assert parts[0] + "" == parts[0];
      assert [parts[0]] + parts[1..] == parts;
    }
  }

  lemma EntryHasNoSeparator<C>(card: Option<C>, name: C -> string)
    requires forall c :: Separator !in name(c)
    ensures Separator !in Entry(card, name)
  {
    if card.None? {
      assert forall k :: 0 <= k < |Unknown| ==> Unknown[k] != Separator;
    }
  }

  /** Card type names and `UNKNOWN` contain no comma, so a deck line
      splits back into one field per card, in order, when there is at least one
      card (no cards give "", which splits into one empty field). */
  lemma DeckLineFields<C>(cards: seq<Option<C>>, name: C -> string)
    requires |cards| > 0
    requires forall c :: Separator !in name(c)
    ensures Split(Separator, Join(Separator, Entries(cards, name))) == Entries(cards, name)
  {
    var es := Entries(cards, name);
    forall i | 0 <= i < |es| ensures Separator !in es[i] {
      EntryHasNoSeparator(cards[i], name);
    }
    SplitJoin(Separator, es);
  }

  // ---------------------------------------------------------------------
  // Player labels.

  function Digit(d: nat): (c: char)
    requires d < 10
    ensures '0' <= c <= '9'
  {
    "0123456789"[d]
  }

  /** Java's decimal rendering of a non-negative `int`. */
  function NatToString(n: nat): (s: string)
    ensures |s| > 0
    ensures forall i :: 0 <= i < |s| ==> '0' <= s[i] <= '9'
    ensures |s| > 1 ==> s[0] != '0'
  {
    if n < 10 then [Digit(n)] else NatToString(n / 10) + [Digit(n % 10)]
  }

  function DigitsValue(s: string): int
  {
    if |s| == 0 then 0 else 10 * DigitsValue(s[..|s| - 1]) + (s[|s| - 1] as int - '0' as int)
  }

  /** The rendering is faithful: reading the digits back gives `n`. */
  lemma {:induction false} NatToStringValue(n: nat)
    ensures DigitsValue(NatToString(n)) == n
  {
    var s := NatToString(n);
    if n >= 10 {
      NatToStringValue(n / 10);
      assert s[..|s| - 1] == NatToString(n / 10);
    }
  }

  /** The label printed before hand `i`. */
  function Label(i: nat, currentPlayer: int): string
  {
    if currentPlayer == i then ">>> Player " + NatToString(i) + ":"
    else "Player " + NatToString(i) + ":"
  }

  /** Whether a printed line carries the observer's marker. */
  predicate Marked(line: string)
  {
    |line| >= 4 && line[..4] == ">>> "
  }

  /** Hand `i`'s label is marked exactly when `i` is the observing player,
      and the marked label is the plain one behind the marker. */
  lemma LabelMarksCurrent(i: nat, currentPlayer: int, rest: string)
    ensures Marked(Label(i, currentPlayer) + rest) <==> i == currentPlayer
    ensures i == currentPlayer ==> Label(i, currentPlayer) == ">>> " + Label(i, -1)
  {
    var n := NatToString(i);
    if i != currentPlayer {
      assert (Label(i, currentPlayer) + rest)[0] == 'P';
    } else {
      assert Label(i, currentPlayer) == ">>> " + ("Player " + n + ":");
      assert (Label(i, currentPlayer) + rest)[..4] == ">>> ";
    }
  }

  // ---------------------------------------------------------------------
  // The whole observation.

  /** The line of hand `i`: its label, then its visible cards. */
  function HandLine<C>(hand: seq<Option<C>>, i: nat, currentPlayer: int, name: C -> string): string
  {
    Label(i, currentPlayer) + Join(Separator, Entries(hand, name))
  }

  /** The lines of the first `k` hands, in order. */
  function HandLines<C>(hands: seq<seq<Option<C>>>, k: nat, currentPlayer: int, name: C -> string): (ls: seq<string>)
    requires k <= |hands|
    ensures |ls| == k
    ensures forall i :: 0 <= i < k ==> ls[i] == HandLine(hands[i], i, currentPlayer, name)
  {
    if k == 0 then []
    else
      var front := HandLines(hands, k - 1, currentPlayer, name);
      var line := HandLine(hands[k - 1], k - 1, currentPlayer, name);
      assert forall i :: 0 <= i < k - 1 ==> (front + [line])[i] == front[i];
      front + [line]
  }

  /** The lines, each ended by a newline. */
  function Unlines(ls: seq<string>): string
  {
    if |ls| == 0 then "" else Unlines(ls[..|ls| - 1]) + ls[|ls| - 1] + "\n"
  }

  /** Everything printed: the hand lines, then the draw pile and the
      discard pile lines. */
  function Lines<C>(hands: seq<seq<Option<C>>>, drawPile: seq<Option<C>>, discardPile: seq<Option<C>>,
                    currentPlayer: int, name: C -> string): seq<string>
  {
    HandLines(hands, |hands|, currentPlayer, name) +
    ["DrawPile:" + Join(Separator, Entries(drawPile, name)),
     "DiscardPile:" + Join(Separator, Entries(discardPile, name))]
  }

  /** Exactly one printed line is marked, the observing player's hand, when
      the observer holds a hand; otherwise none is. */
  lemma OnlyObserverMarked<C>(hands: seq<seq<Option<C>>>, drawPile: seq<Option<C>>, discardPile: seq<Option<C>>,
                              currentPlayer: int, name: C -> string)
    ensures var ls := Lines(hands, drawPile, discardPile, currentPlayer, name);
            |ls| == |hands| + 2 &&
            forall k :: 0 <= k < |ls| ==> (Marked(ls[k]) <==> k < |hands| && k == currentPlayer)
  {
    var ls := Lines(hands, drawPile, discardPile, currentPlayer, name);
    forall k | 0 <= k < |ls| ensures Marked(ls[k]) <==> k < |hands| && k == currentPlayer {
      if k < |hands| {
        LabelMarksCurrent(k, currentPlayer, Join(Separator, Entries(hands[k], name)));
      } else {
        assert ls[k][0] == 'D';
      }
    }
  }

  lemma UnlinesSnoc(ls: seq<string>, l: string)
    ensures Unlines(ls + [l]) == Unlines(ls) + l + "\n"
  {
    assert (ls + [l])[..|ls|] == ls;
  }

  /** `printToConsole`, without the console: the labelled hands, then the
      two piles, each deck line ended by the newline `println` adds. The
      visible cards of each hand and pile are inputs. */
  method PrintToConsole<C>(hands: seq<seq<Option<C>>>, drawPile: seq<Option<C>>, discardPile: seq<Option<C>>,
                           currentPlayer: int, name: C -> string) returns (out: string)
    ensures out == Unlines(Lines(hands, drawPile, discardPile, currentPlayer, name))
  {
    out := "";
    for i := 0 to |hands|
      invariant out == Unlines(HandLines(hands, i, currentPlayer, name))
    {
      var heading;
      if currentPlayer == i {
        heading := ">>> Player " + NatToString(i) + ":";
      } else {
        heading := "Player " + NatToString(i) + ":";
      }
      var deck := PrintDeck(hands[i], name);
      assert heading + deck == HandLine(hands[i], i, currentPlayer, name);
      UnlinesSnoc(HandLines(hands, i, currentPlayer, name), heading + deck);
      out := out + (heading + deck) + "\n";
    }
    ghost var hl := HandLines(hands, |hands|, currentPlayer, name);
    var draw := PrintDeck(drawPile, name);
    UnlinesSnoc(hl, "DrawPile:" + draw);
    out := out + ("DrawPile:" + draw) + "\n";
    var discard := PrintDeck(discardPile, name);
    UnlinesSnoc(hl + ["DrawPile:" + draw], "DiscardPile:" + discard);
    out := out + ("DiscardPile:" + discard) + "\n";
    assert hl + ["DrawPile:" + draw] + ["DiscardPile:" + discard] ==
           Lines(hands, drawPile, discardPile, currentPlayer, name);
  }
}
