// The page's small interactive widgets: the mobile menu, the accordion, the
// back-to-top button, the simulated wallet modal, the newsletter's email
// check, the feature filter and the test credential id.

module Widgets {
  import opened Text

  // ----- Mobile menu -----

  /** The toggle's aria-expanded and the menu's aria-hidden; None when never set. */
  datatype Menu = Menu(expanded: Option<string>, hidden: Option<string>)

  /** String(b). */
  function BoolText(b: bool): (r: string)
    ensures r == "true" <==> b
  {
    if b then "true" else "false"
  }

  /** The mobile toggle's click: the menu counts as open only when aria-expanded is exactly
      'true'; the click flips it and sets aria-hidden to the old value. */
  function MenuClick(m: Menu): Menu
  {
    var expanded := m.expanded == Some("true");
    Menu(Some(BoolText(!expanded)), Some(BoolText(expanded)))
  }

  /** The menu is consistent when one of the two attributes is 'true' and the other 'false'. */
  predicate MenuConsistent(m: Menu)
  {
    || m == Menu(Some("true"), Some("false"))
    || m == Menu(Some("false"), Some("true"))
  }

  /** One click, from any attributes, leaves the menu consistent, and opens it exactly when it
      was not open; two clicks restore a consistent menu. */
  lemma MenuClickFlips(m: Menu)
    ensures MenuConsistent(MenuClick(m))
    ensures MenuClick(m).expanded == Some("true") <==> m.expanded != Some("true")
    ensures MenuConsistent(m) ==> MenuClick(MenuClick(m)) == m
  {
  }

  // ----- Accordion -----

  /** An .accordion-item: whether it has a header and a body, its 'active' class and its
      header's aria-expanded. */
  datatype Panel = Panel(hasHeader: bool, hasBody: bool, active: bool, expanded: Option<string>)

  /** A click on item k's header: only items with both a header and a body listen; the click
      toggles 'active' and mirrors it in aria-expanded. Other items are left alone. */
  function PanelClick(panels: seq<Panel>, k: nat): (r: seq<Panel>)
    ensures |r| == |panels|
    ensures forall j :: 0 <= j < |r| && j != k ==> r[j] == panels[j]
  {
    if k < |panels| && panels[k].hasHeader && panels[k].hasBody then
      var active := !panels[k].active;
      panels[k := panels[k].(active := active, expanded := Some(if active then "true" else "false"))]
    else panels
  }

  /** A listening item changes state on each click and its aria-expanded says which; two clicks
      restore its 'active' class. */
  lemma PanelClickToggles(panels: seq<Panel>, k: nat)
    requires k < |panels| && panels[k].hasHeader && panels[k].hasBody
    ensures var r := PanelClick(panels, k);
      && r[k].active == !panels[k].active
      && (r[k].expanded == Some("true") <==> r[k].active)
      && PanelClick(r, k)[k].active == panels[k].active
  {
  }

  // ----- Back to top -----

  const BackToTopThreshold: real := 400.0

  /** The scroll handler's verdict on the button's 'active' class (without a button it does
      nothing). */
  function BackToTopActive(hasButton: bool, wasActive: bool, scrollY: real): (r: bool)
    ensures hasButton ==> (r <==> scrollY > BackToTopThreshold)
    ensures !hasButton ==> r == wasActive
  {
    if !hasButton then wasActive else scrollY > 400.0
  }

  /** The button depends on the last scroll position only, and more scrolling never hides it. */
  lemma BackToTopMonotone(wasActive: bool, otherActive: bool, y1: real, y2: real)
    requires y1 <= y2
    ensures BackToTopActive(true, wasActive, y1) ==> BackToTopActive(true, otherActive, y2)
  {
  }

  // ----- Wallet modal -----

  /** #walletModal's aria-hidden and style.display, the connect button's text and btn-primary
      class, and the toasts shown. */
  datatype Wallet = Wallet(hidden: Option<string>, display: string, connectText: string,
                           primary: bool, toasts: seq<string>)

  /** The modal is consistent when aria-hidden and display agree. */
  predicate ModalConsistent(w: Wallet)
  {
    || (w.hidden == Some("false") && w.display == "flex")
    || (w.hidden == Some("true") && w.display == "none")
  }

  predicate ModalOpen(w: Wallet)
  {
    w.hidden == Some("false")
  }

  function OpenModal(w: Wallet): Wallet
  {
    w.(hidden := Some("false"), display := "flex")
  }

  function CloseModal(w: Wallet): Wallet
  {
    w.(hidden := Some("true"), display := "none")
  }

  /** Escape closes the modal only when it is open. */
  function Escape(w: Wallet): Wallet
  {
    if ModalOpen(w) then CloseModal(w) else w
  }

  /** The simulated account: Phantom's fixed text, or '0x' and eight hex digits of the random
      number's text (Math.random().toString(16)), upper-cased. */
  function FakeAccount(wallet: string, randomHex: string): string
  {
    if wallet == "phantom" then "Phantom: 0xDEAD...BEAF" else "0x" + Upper(Slice(randomHex, 2, 10))
  }

  /** A .wallet-btn click: names the wallet and account on the connect button, drops its
      btn-primary class, announces the connection and closes the modal. An empty data-wallet
      makes `wallet[0].toUpperCase()` throw before anything changes. */
  function ChooseWallet(w: Wallet, wallet: string, randomHex: string): (r: Option<Wallet>)
    ensures r.None? <==> wallet == []
  {
    if wallet == [] then None
    else
      var account := FakeAccount(wallet, randomHex);
      Some(CloseModal(w.(connectText := [UpperAscii(wallet[0])] + wallet[1..] + " • " + account,
                         primary := false,
                         toasts := w.toasts + ["Connected with " + wallet])))
  }

  /** Opening, closing, Escape and choosing a wallet all leave aria-hidden and display in step;
      Escape closes an open modal and a wallet choice always closes it. */
  lemma ModalStaysConsistent(w: Wallet, wallet: string, randomHex: string)
    requires ModalConsistent(w)
    ensures ModalConsistent(OpenModal(w)) && ModalOpen(OpenModal(w))
    ensures ModalConsistent(CloseModal(w)) && !ModalOpen(CloseModal(w))
    ensures ModalConsistent(Escape(w)) && !ModalOpen(Escape(w))
    ensures wallet != [] ==>
      && ModalConsistent(ChooseWallet(w, wallet, randomHex).value)
      && !ModalOpen(ChooseWallet(w, wallet, randomHex).value)
  {
  }

  /** Escape on a closed modal changes nothing. */
  lemma EscapeWhenClosed(w: Wallet)
    requires !ModalOpen(w)
    ensures Escape(w) == w
  {
  }

  // ----- Newsletter -----

  /** The newsletter check: the trimmed value must be non-empty and contain '@'. */
  predicate ValidEmail(value: string)
  {
    AcceptedEmail(Trim(value))
  }

  /** `!email || !email.includes('@')` fails on the trimmed value. */
  predicate AcceptedEmail(email: string)
  {
    email != [] && '@' in email
  }

  /** The emptiness test is implied by the '@' test. */
  lemma AcceptedHasAt(email: string)
    ensures AcceptedEmail(email) <==> '@' in email
  {
  }

  /** Trimming and the emptiness test add nothing: the value is accepted exactly when it has an
      '@' somewhere. */
  lemma ValidEmailHasAt(value: string)
    ensures ValidEmail(value) <==> '@' in value
  {
    TrimKeeps(value, '@');
    AcceptedHasAt(Trim(value));
  }

  /** The submit handler: the toast it shows and whether the form is reset. */
  function Subscribe(value: string): (r: (string, bool))
    ensures r.1 <==> ValidEmail(value)
    ensures r.1 <==> r.0 != "Enter a valid email"
  {
    if !ValidEmail(value) then ("Enter a valid email", false)
    else ("Subscribed — check your inbox (demo)", true)
  }

  // ----- Feature filter -----

  /** A #featureGrid .feature-card: its data-type and its style.display. */
  datatype Card = Card(kind: Option<string>, display: string)

  /** The filter shows a card when the chosen value is 'all' or equals the card's data-type. */
  predicate Matches(v: string, card: Card)
  {
    v == "all" || card.kind == Some(v)
  }

  function Filtered(card: Card, v: string): Card
  {
    card.(display := if Matches(v, card) then "" else "none")
  }

  /** The whole grid after the filter changes to v. */
  function FilterCards(cards: seq<Card>, v: string): (r: seq<Card>)
    ensures |r| == |cards|
    ensures forall k :: 0 <= k < |r| ==> r[k] == Filtered(cards[k], v)
  {
    if cards == [] then [] else [Filtered(cards[0], v)] + FilterCards(cards[1..], v)
  }

  /** Shown cards are exactly the matching ones, data-types are untouched, filtering again with
      the same value changes nothing, and 'all' shows every card. */
  lemma FilterShowsMatches(cards: seq<Card>, v: string)
    ensures var r := FilterCards(cards, v);
      && (forall k :: 0 <= k < |r| ==> (r[k].display == "" <==> Matches(v, cards[k])))
      && (forall k :: 0 <= k < |r| ==> r[k].kind == cards[k].kind)
      && FilterCards(r, v) == r
      && (v == "all" ==> forall k :: 0 <= k < |r| ==> r[k].display == "")
  {
    var r := FilterCards(cards, v);
    var rr := FilterCards(r, v);
    assert forall k :: 0 <= k < |rr| ==> rr[k] == r[k];
  }

  /** The filter's change handler, walking the cards of the grid in place. */
  method ApplyFilter(cards: array<Card>, v: string)
    modifies cards
    ensures cards[..] == FilterCards(old(cards[..]), v)
  {
    var k := 0;
    while k < cards.Length
      invariant 0 <= k <= cards.Length
      invariant forall j :: 0 <= j < k ==> cards[j] == Filtered(old(cards[j]), v)
      invariant forall j :: k <= j < cards.Length ==> cards[j] == old(cards[j])
    {
      var card := cards[k];
      if v == "all" || card.kind == Some(v) {
        cards[k] := card.(display := "");
      } else {
        cards[k] := card.(display := "none");
      }
      k := k + 1;
    }
  }

  // ----- Credential id -----

  /** generateShortId, given the text of the random number in base 36 (for instance
      "0.4fzyo82mvyr"): 'SP-' and characters 2 to 9 of it, upper-cased. */
  function ShortId(randomText: string): (r: string)
    ensures 3 <= |r| <= 11 && r[..3] == "SP-"
    ensures forall j :: 3 <= j < |r| ==> !('a' <= r[j] <= 'z')
  {
    "SP-" + Upper(Slice(randomText, 2, 10))
  }

  /** The id keeps eight characters of the random text when it has them; a random number with
      a short base-36 text (0.5 is "0.i") gives a shorter id. */
  lemma ShortIdLength(randomText: string)
    ensures |ShortId(randomText)| == 3 + if |randomText| >= 10 then 8 else if |randomText| >= 2 then |randomText| - 2 else 0
    ensures |randomText| < 10 ==> |ShortId(randomText)| < 11
  {
  }

  /** A base-36 digit as Number.prototype.toString(36) writes it. */
  predicate IsBase36(c: char) { IsDigit(c) || 'a' <= c <= 'z' }

  /** On the text of a random number in [0, 1) in base 36 ("0." and base-36 digits) every
      character after 'SP-' is a digit or an upper-case letter. */
  lemma ShortIdAlphabet(randomText: string)
    requires |randomText| >= 2 && randomText[..2] == "0."
    requires forall j :: 2 <= j < |randomText| ==> IsBase36(randomText[j])
    ensures var id := ShortId(randomText);
      forall j :: 3 <= j < |id| ==> IsDigit(id[j]) || 'A' <= id[j] <= 'Z'
  {
    var e := if 10 <= |randomText| then 10 else |randomText|;
    var part := randomText[2..e];
    assert Slice(randomText, 2, 10) == part;
    assert forall j :: 0 <= j < |part| ==> part[j] == randomText[j + 2];
  }

  /** The copy button's text: the search box's value, or a fresh id when it is empty. */
  function CopyText(searchValue: string, randomText: string): (r: string)
    ensures searchValue != [] ==> r == searchValue
    ensures searchValue == [] ==> |r| >= 3 && r[..3] == "SP-"
  {
    if searchValue != [] then searchValue else ShortId(randomText)
  }
}
