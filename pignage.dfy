/**
 * The two signage players, `primary` and `secondary` (src/server/pignage.ts). Each is
 * reached over a WebSocket at its configured address, reconnected by a 1-second
 * repeater, and reports its file groups, its HTML pages, the slide it shows and the group
 * it plays. The server asks a player to show a slide or play a group, and shows the comic
 * card page with the comic's name and social handle in its query string.
 */
module Pignage {
  import opened Wrappers

  datatype Instance = Primary | Secondary

  datatype FileEntry = FileEntry(name: string, url: string)
  datatype FileGroup = FileGroup(name: string, files: seq<FileEntry>, thumbnail: string, thumbnailWidth: int, slideDelay: int)
  datatype PageFile = PageFile(name: string, path: string, isHtml: bool)

  /** A slide is a page name or a [group, file] pair. */
  datatype Slide = Page(page: string) | Pair(group: string, file: string)

  /** What a player sends, after `JSON.parse`; `Other` is any other or unparsable message. */
  datatype ServerMessage =
    | Groups(groups: seq<FileGroup>)
    | PagesDir(files: seq<PageFile>)
    | ActiveSlide(slide: Slide)
    | PlayingGroup(group: Option<string>)
    | Other

  /** What the server asks a player to do. */
  datatype ClientMessage = ShowSlide(slide: Slide) | PlayGroup(group: Option<string>)

  /** One `sendMessage(instance, message)` call. */
  datatype Outgoing = Outgoing(to: Instance, message: ClientMessage)

  datatype GroupInfo = GroupInfo(name: string, files: seq<string>)
  /** `slideInfo`: what the browsers are shown of one player. */
  datatype SlideInfo = SlideInfo(groups: seq<GroupInfo>, pagesDir: seq<string>)

  // ---------------------------------------------------------------------------
  // getInfo

  function FileNames(files: seq<FileEntry>): (r: seq<string>)
    ensures |r| == |files| && forall i :: 0 <= i < |files| ==> r[i] == files[i].name
  {
    seq(|files|, i requires 0 <= i < |files| => files[i].name)
  }

  function GroupInfos(groups: seq<FileGroup>): seq<GroupInfo>
  {
    seq(|groups|, i requires 0 <= i < |groups| => GroupInfo(groups[i].name, FileNames(groups[i].files)))
  }

  /** The projection works group by group: it distributes over concatenation. */
  lemma GroupInfosAppend(p: seq<FileGroup>, q: seq<FileGroup>)
    ensures GroupInfos(p + q) == GroupInfos(p) + GroupInfos(q)
  {
    var l, r := GroupInfos(p + q), GroupInfos(p) + GroupInfos(q);
    assert |l| == |r|;
    forall i | 0 <= i < |l|
      ensures l[i] == r[i]
    {
      if i < |p| {
        assert (p + q)[i] == p[i];
      } else {
        assert (p + q)[i] == q[i - |p|];
      }
    }
  }

  /**
   * The browsers are shown a group under a name exactly when `setSlide` treats that name as
   * one of the player's groups, and the group's files are listed by name in their order.
   */
  lemma InfoNamesPlayableGroups(groups: seq<FileGroup>, name: string)
    ensures (exists i :: 0 <= i < |GroupInfos(groups)| && GroupInfos(groups)[i].name == name)
            <==> name in GroupNames(groups)
    ensures forall i :: 0 <= i < |groups| ==>
      |GroupInfos(groups)[i].files| == |groups[i].files|
      && forall j :: 0 <= j < |groups[i].files| ==> GroupInfos(groups)[i].files[j] == groups[i].files[j].name
  {
    var infos, names := GroupInfos(groups), GroupNames(groups);
    if name in names {
      var i :| 0 <= i < |names| && names[i] == name;
      assert infos[i].name == name;
    }
    if exists i :: 0 <= i < |infos| && infos[i].name == name {
      var i :| 0 <= i < |infos| && infos[i].name == name;
      assert names[i] == name;
    }
  }

  /** `pagesDir.filter(file => file.isHtml).map(file => file.name)`. */
  function HtmlNames(pages: seq<PageFile>): (r: seq<string>)
    ensures |r| <= |pages|
  {
    if pages == [] then []
    else (if pages[0].isHtml then [pages[0].name] else []) + HtmlNames(pages[1..])
  }

  /** The filter distributes over concatenation, so it keeps the HTML pages in their order. */
  lemma {:induction false} HtmlNamesAppend(p: seq<PageFile>, q: seq<PageFile>)
    ensures HtmlNames(p + q) == HtmlNames(p) + HtmlNames(q)
  {
    if p == [] {
      assert p + q == q;
    } else {
      var head := if p[0].isHtml then [p[0].name] else [];
      assert (p + q)[0] == p[0] && (p + q)[1..] == p[1..] + q;
      HtmlNamesAppend(p[1..], q);
      calc {
        HtmlNames(p + q);
        head + HtmlNames(p[1..] + q);
        head + (HtmlNames(p[1..]) + HtmlNames(q));
        HtmlNames(p) + HtmlNames(q);
      }
    }
  }

  /** A name is listed exactly when some HTML page carries it. */
  lemma {:induction false} HtmlNamesMembers(pages: seq<PageFile>, name: string)
    ensures name in HtmlNames(pages) <==> exists i :: 0 <= i < |pages| && pages[i].isHtml && pages[i].name == name
  {
    if pages != [] {
      HtmlNamesMembers(pages[1..], name);
      if exists i :: 0 <= i < |pages[1..]| && pages[1..][i].isHtml && pages[1..][i].name == name {
        var i :| 0 <= i < |pages[1..]| && pages[1..][i].isHtml && pages[1..][i].name == name;
        assert pages[i + 1] == pages[1..][i];
      }
      if exists i :: 0 <= i < |pages| && pages[i].isHtml && pages[i].name == name {
        var i :| 0 <= i < |pages| && pages[i].isHtml && pages[i].name == name;
        if i > 0 {
          assert pages[1..][i - 1] == pages[i];
        }
      }
    }
  }

  /** With no non-HTML page, every page name is kept in order. */
  lemma {:induction false} HtmlNamesAllHtml(pages: seq<PageFile>)
    requires forall i :: 0 <= i < |pages| ==> pages[i].isHtml
    ensures HtmlNames(pages) == seq(|pages|, i requires 0 <= i < |pages| => pages[i].name)
  {
    if pages != [] {
      HtmlNamesAllHtml(pages[1..]);
    }
  }

  // ---------------------------------------------------------------------------
  // Slides

  /** `slidesAreEqual`: two pages with the same name, or two pairs with the same components. */
  function SlidesAreEqual(a: Slide, b: Slide): (r: bool)
  {
    match (a, b)
    case (Page(x), Page(y)) => x == y
    case (Pair(g, f), Pair(h, e)) => g == h && f == e
    case _ => false
  }

  /** The test is exactly equality of slides: a page never equals a pair. */
  lemma SlidesAreEqualIff(a: Slide, b: Slide)
    ensures SlidesAreEqual(a, b) <==> a == b
    ensures a.Page? != b.Page? ==> !SlidesAreEqual(a, b)
  {
  }

  /** `!activeSlide`: no slide, or the empty page name. */
  predicate NoActiveSlide(active: Option<Slide>) {
    active.None? || active.value == Page("")
  }

  function GroupNames(groups: seq<FileGroup>): (r: seq<string>)
    ensures |r| == |groups| && forall i :: 0 <= i < |groups| ==> r[i] == groups[i].name
  {
    seq(|groups|, i requires 0 <= i < |groups| => groups[i].name)
  }

  // ---------------------------------------------------------------------------
  // setComicCard

  /**
   * The query string of the card page: `name=…` when the name is non-empty, `social=…`
   * when the handle is non-empty, `&` between them only when both are, and `?` in front
   * only when anything is. `encode` is `encodeURIComponent`.
   */
  function CardQuery(name: string, social: string, encode: string -> string): string
  {
    if name == "" && social == "" then ""
    else if social == "" then "?name=" + encode(name)
    else if name == "" then "?social=" + encode(social)
    else "?name=" + encode(name) + "&social=" + encode(social)
  }

  /** `setComicCard`'s accumulation of `args`. */
  method ComicCardQuery(name: string, social: string, encode: string -> string) returns (args: string)
    ensures args == CardQuery(name, social, encode)
  {
    args := "";
    if name != "" {
      args := args + "name=" + encode(name);
    }
    if social != "" {
      args := args + (if args != "" then "&" else "") + "social=" + encode(social);
    }
    if args != "" {
      args := "?" + args;
    }
  }

  /** The query is empty exactly when both parts are, and otherwise starts with `?`. */
  lemma CardQueryShape(name: string, social: string, encode: string -> string)
    ensures CardQuery(name, social, encode) == "" <==> name == "" && social == ""
    ensures CardQuery(name, social, encode) != "" ==> CardQuery(name, social, encode)[0] == '?'
  {
  }

  /** The page `setComicCard` asks for. */
  function CardSlide(name: string, social: string, encode: string -> string): Slide
  {
    Page("card.html" + CardQuery(name, social, encode))
  }

  // ---------------------------------------------------------------------------
  // A player

  class Screen {
    /** The address the socket was opened for. */
    var address: Option<string>
    /** `socket !== null`. */
    var hasSocket: bool
    /** The socket has reached `WebSocket.OPEN`. */
    var open: bool
    var groups: seq<FileGroup>
    var pagesDir: seq<PageFile>
    var activeSlide: Option<Slide>
    var playingGroup: Option<string>

    ghost predicate Valid()
      reads this
    {
      open ==> hasSocket
    }

    constructor ()
      ensures Valid()
      ensures address.None? && !hasSocket && !open && groups == [] && pagesDir == []
      ensures activeSlide.None? && playingGroup.None?
    {
      address := None;
      hasSocket := false;
      open := false;
      groups := [];
      pagesDir := [];
      activeSlide := None;
      playingGroup := None;
    }

    /** `getInfo`: group names with their file names, and the names of the HTML pages. */
    function Info(): SlideInfo
      reads this
    {
      SlideInfo(GroupInfos(groups), HtmlNames(pagesDir))
    }

    /**
     * `repeater`: acts only for a non-empty configured address that differs from the bound
     * one or has no socket, so a null address never closes anything. An existing socket is
     * only closed this tick; otherwise the address is bound and a socket opened.
     */
    method Repeater(configured: Option<string>) returns (created: bool)
      requires Valid()
      modifies this
      ensures Valid()
      ensures var acts := configured.Some? && configured.value != "" && (configured != old(address) || !old(hasSocket));
        (created <==> acts && !old(hasSocket))
        && hasSocket == (if acts then !old(hasSocket) else old(hasSocket))
        && open == (if acts then false else old(open))
        && address == (if created then configured else old(address))
      ensures groups == old(groups) && pagesDir == old(pagesDir)
      ensures activeSlide == old(activeSlide) && playingGroup == old(playingGroup)
    {
      created := false;
      if configured.Some? && configured.value != "" && (configured != address || !hasSocket) {
        if hasSocket {
          hasSocket := false;
          open := false;
          return;
        }
        address := configured;
        hasSocket := true;
        open := false;
        created := true;
      }
    }

    /** The socket's `open` event. */
    method OnOpen()
      requires Valid() && hasSocket
      modifies this
      ensures Valid() && open
      ensures hasSocket && address == old(address) && groups == old(groups) && pagesDir == old(pagesDir)
      ensures activeSlide == old(activeSlide) && playingGroup == old(playingGroup)
    {
      open := true;
    }

    /** The socket's `close` event forgets the socket. */
    method OnClose()
      modifies this
      ensures Valid() && !hasSocket && !open
      ensures address == old(address) && groups == old(groups) && pagesDir == old(pagesDir)
      ensures activeSlide == old(activeSlide) && playingGroup == old(playingGroup)
    {
      hasSocket := false;
      open := false;
    }

    /**
     * A message from the player: `groups` and `pagesDir` replace the lists and make the
     * server publish the info of both players; `activeSlide` and `playingGroup` are only
     * recorded; anything else changes nothing.
     */
    method OnMessage(m: ServerMessage) returns (publish: bool)
      modifies this
      ensures publish <==> m.Groups? || m.PagesDir?
      ensures groups == (if m.Groups? then m.groups else old(groups))
      ensures pagesDir == (if m.PagesDir? then m.files else old(pagesDir))
      ensures activeSlide == (if m.ActiveSlide? then Some(m.slide) else old(activeSlide))
      ensures playingGroup == (if m.PlayingGroup? then m.group else old(playingGroup))
      ensures address == old(address) && hasSocket == old(hasSocket) && open == old(open)
    {
      publish := false;
      match m {
        case Groups(g) =>
          groups := g;
          publish := true;
        case PagesDir(f) =>
          pagesDir := f;
          publish := true;
        case ActiveSlide(s) =>
          activeSlide := Some(s);
        case PlayingGroup(g) =>
          playingGroup := g;
        case Other =>
      }
    }

    /** `sendMessage`: the message goes out only while the socket is open. */
    method SendMessage(message: ClientMessage) returns (delivered: Option<ClientMessage>)
      ensures delivered == (if hasSocket && open then Some(message) else None)
    {
      if hasSocket && open {
        return Some(message);
      }
      return None;
    }

    /**
     * `setSlide`, as written. A page naming one of this player's groups asks it to play that
     * group unless it already plays it, and records it as playing. Any other slide is sent
     * as `activeSlide` when this player shows no slide or a different one, addressed to
     * the primary player whichever player was asked.
     */
    method SetSlide(slide: Slide, instance: Instance) returns (sent: seq<Outgoing>)
      modifies this
      ensures var isGroup := slide.Page? && slide.page in GroupNames(old(groups));
        (isGroup ==>
          sent == (if old(playingGroup) != Some(slide.page) then [Outgoing(instance, PlayGroup(Some(slide.page)))] else [])
          && playingGroup == Some(slide.page))
        && (!isGroup ==>
          sent == (if NoActiveSlide(old(activeSlide)) || !SlidesAreEqual(slide, old(activeSlide).value)
                   then [Outgoing(Primary, ShowSlide(slide))] else [])
          && playingGroup == old(playingGroup))
      ensures address == old(address) && hasSocket == old(hasSocket) && open == old(open)
      ensures groups == old(groups) && pagesDir == old(pagesDir) && activeSlide == old(activeSlide)
    {
      sent := [];
      if slide.Page? && slide.page in GroupNames(groups) {
        if playingGroup != Some(slide.page) {
          sent := [Outgoing(instance, PlayGroup(Some(slide.page)))];
          playingGroup := Some(slide.page);
        }
      } else if NoActiveSlide(activeSlide) || !SlidesAreEqual(slide, activeSlide.value) {
        sent := [Outgoing(Primary, ShowSlide(slide))];
      }
    }

    /**
     * `setSlide` as evidently intended: the `activeSlide` request goes to the player whose
     * current slide was compared.
     */
    method SetSlideIntended(slide: Slide, instance: Instance) returns (sent: seq<Outgoing>)
      modifies this
      ensures var isGroup := slide.Page? && slide.page in GroupNames(old(groups));
        (isGroup ==>
          sent == (if old(playingGroup) != Some(slide.page) then [Outgoing(instance, PlayGroup(Some(slide.page)))] else [])
          && playingGroup == Some(slide.page))
        && (!isGroup ==>
          sent == (if NoActiveSlide(old(activeSlide)) || !SlidesAreEqual(slide, old(activeSlide).value)
                   then [Outgoing(instance, ShowSlide(slide))] else [])
          && playingGroup == old(playingGroup))
      ensures forall o :: o in sent ==> o.to == instance
      ensures address == old(address) && hasSocket == old(hasSocket) && open == old(open)
      ensures groups == old(groups) && pagesDir == old(pagesDir) && activeSlide == old(activeSlide)
    {
      sent := [];
      if slide.Page? && slide.page in GroupNames(groups) {
        if playingGroup != Some(slide.page) {
          sent := [Outgoing(instance, PlayGroup(Some(slide.page)))];
          playingGroup := Some(slide.page);
        }
      } else if NoActiveSlide(activeSlide) || !SlidesAreEqual(slide, activeSlide.value) {
        sent := [Outgoing(instance, ShowSlide(slide))];
      }
    }
  }

  /**
   * `setComicCard`: the card page is sent to each player whose active slide is not already
   * exactly that page, primary first.
   */
  method SetComicCard(primary: Screen, secondary: Screen, name: string, social: string, encode: string -> string)
    returns (sent: seq<Outgoing>)
    ensures var card := CardSlide(name, social, encode);
      sent == (if primary.activeSlide != Some(card) then [Outgoing(Primary, ShowSlide(card))] else [])
              + (if secondary.activeSlide != Some(card) then [Outgoing(Secondary, ShowSlide(card))] else [])
  {
    var args := ComicCardQuery(name, social, encode);
    var newSlide := Page("card.html" + args);
    sent := [];
    if primary.activeSlide != Some(newSlide) {
      sent := sent + [Outgoing(Primary, ShowSlide(newSlide))];
    }
    if secondary.activeSlide != Some(newSlide) {
      sent := sent + [Outgoing(Secondary, ShowSlide(newSlide))];
    }
  }

  /** Whether a player's socket exists and is open. */
  function OpenTo(o: Outgoing, primaryOpen: bool, secondaryOpen: bool): bool
  {
    if o.to == Primary then primaryOpen else secondaryOpen
  }

  /** The `sendMessage` calls that reach a player, in the order they were made. */
  function Deliverable(calls: seq<Outgoing>, primaryOpen: bool, secondaryOpen: bool): seq<Outgoing>
  {
    if calls == [] then []
    else
      var last := calls[|calls| - 1];
      Deliverable(calls[..|calls| - 1], primaryOpen, secondaryOpen)
      + (if OpenTo(last, primaryOpen, secondaryOpen) then [last] else [])
  }

  /** A call is delivered exactly when it is made to a player whose socket is open. */
  lemma {:induction false} DeliverableMembers(calls: seq<Outgoing>, primaryOpen: bool, secondaryOpen: bool, o: Outgoing)
    ensures o in Deliverable(calls, primaryOpen, secondaryOpen) <==> o in calls && OpenTo(o, primaryOpen, secondaryOpen)
    ensures |Deliverable(calls, primaryOpen, secondaryOpen)| <= |calls|
  {
    if calls != [] {
      var init := calls[..|calls| - 1];
      DeliverableMembers(init, primaryOpen, secondaryOpen, o);
      assert calls == init + [calls[|calls| - 1]];
    }
  }

  /**
   * The `sendMessage` calls of `setSlide` or `setComicCard`, made one after the other: each
   * reaches its player only while that player's socket is open.
   */
  method SendAll(primary: Screen, secondary: Screen, calls: seq<Outgoing>) returns (delivered: seq<Outgoing>)
    ensures delivered == Deliverable(calls, primary.hasSocket && primary.open, secondary.hasSocket && secondary.open)
  {
    delivered := [];
    var i := 0;
    while i < |calls|
      invariant 0 <= i <= |calls|
      invariant delivered == Deliverable(calls[..i], primary.hasSocket && primary.open, secondary.hasSocket && secondary.open)
    {
      var o := calls[i];
      var d: Option<ClientMessage>;
      if o.to == Primary {
        d := primary.SendMessage(o.message);
      } else {
        d := secondary.SendMessage(o.message);
      }
      if d.Some? {
        delivered := delivered + [o];
      }
      assert calls[..i + 1][..i] == calls[..i];
      i := i + 1;
    }
    assert calls[..i] == calls;
  }

  /**
   * The misrouting, on a concrete input: the secondary player shows nothing, is asked to
   * show a page, and the request is addressed to the primary player.
   */
  method SetSlideMisroutes() returns (sent: seq<Outgoing>)
    ensures sent == [Outgoing(Primary, ShowSlide(Page("a.html")))]
  {
    var s := new Screen();
    assert GroupNames(s.groups) == [];
    sent := s.SetSlide(Page("a.html"), Secondary);
  }

  /** The corrected handler, on the same input, addresses the player that was asked. */
  method SetSlideIntendedRoutes() returns (sent: seq<Outgoing>)
    ensures sent == [Outgoing(Secondary, ShowSlide(Page("a.html")))]
  {
    var s := new Screen();
    assert GroupNames(s.groups) == [];
    sent := s.SetSlideIntended(Page("a.html"), Secondary);
  }
}
