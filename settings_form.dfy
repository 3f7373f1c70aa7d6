/**
 * The settings page (src/browser/settings.ts): seven text fields filled from the server's
 * settings, the save/reset buttons shown only while a field differs from what was filled
 * in, the save message built from the fields, and the Spotify footer rebuilt when the
 * Spotify account changes. The DOM and the WebSocket are events.
 */
module SettingsForm {
  import opened Wrappers
  import Js

  /** The part of the server's settings the page shows. */
  datatype Configured = Configured(
    timerAddress: Option<string>,
    primaryAddress: Option<string>,
    secondaryAddress: Option<string>,
    qlabAddress: Option<string>,
    xairAddress: Option<string>,
    musicChannel: Option<int>,
    defaultPlaylist: Option<string>,
    userName: Option<string>,
    refreshToken: Option<string>)

  /** The `.value` of the seven inputs. */
  datatype Fields = Fields(
    timer: string, primary: string, secondary: string, qlab: string, xair: string,
    music: string, playlist: string)

  datatype FieldName = TimerField | PrimaryField | SecondaryField | QlabField | XairField | MusicField | PlaylistField

  /**
   * The save message's `settings`: each address and the playlist, or null for an empty
   * field (the pignage addresses travel as `pignage.primary.address` and
   * `pignage.secondary.address`, the playlist as `spotify.defaultPlaylist`).
   */
  datatype SavePatch = SavePatch(
    timerAddress: Option<string>,
    primaryAddress: Option<string>,
    secondaryAddress: Option<string>,
    qlabAddress: Option<string>,
    xairAddress: Option<string>,
    musicChannel: Option<int>,
    defaultPlaylist: Option<string>)

  /** What the Spotify footer holds. */
  datatype Footer = Connected(text: string) | NotLocal(text: string) | ConnectButton

  /** `settings.musicChannel?.toString() || ''`. */
  function ChannelText(channel: Option<int>): string
  {
    match channel
    case None => ""
    case Some(c) => Js.IntToString(c)
  }

  /** The channel's text is empty exactly for no channel, and `parseInt` reads the channel back. */
  lemma ChannelTextParses(channel: Option<int>)
    ensures ChannelText(channel) == "" <==> channel.None?
    ensures channel.Some? ==> Js.ParseInt(ChannelText(channel)) == channel
  {
    if channel.Some? {
      Js.ParseIntIntToString(channel.value);
    }
  }

  /** What `populateValues` writes into the fields: each setting's text, or '' for null or no settings. */
  function Populated(settings: Option<Configured>): (f: Fields)
    ensures settings.None? ==> f == Fields("", "", "", "", "", "", "")
    ensures settings.Some? ==>
      var s := settings.value;
      f.timer == Js.OrEmpty(s.timerAddress) && f.primary == Js.OrEmpty(s.primaryAddress)
      && f.secondary == Js.OrEmpty(s.secondaryAddress) && f.qlab == Js.OrEmpty(s.qlabAddress)
      && f.xair == Js.OrEmpty(s.xairAddress) && f.playlist == Js.OrEmpty(s.defaultPlaylist)
      && (f.music == "" <==> s.musicChannel.None?)
      && (s.musicChannel.Some? ==> Js.ParseInt(f.music) == s.musicChannel)
  {
    match settings
    case None => Fields("", "", "", "", "", "", "")
    case Some(s) =>
      ChannelTextParses(s.musicChannel);
      Fields(Js.OrEmpty(s.timerAddress), Js.OrEmpty(s.primaryAddress), Js.OrEmpty(s.secondaryAddress),
             Js.OrEmpty(s.qlabAddress), Js.OrEmpty(s.xairAddress), ChannelText(s.musicChannel),
             Js.OrEmpty(s.defaultPlaylist))
  }

  function FieldValue(f: Fields, name: FieldName): string
  {
    match name
    case TimerField => f.timer
    case PrimaryField => f.primary
    case SecondaryField => f.secondary
    case QlabField => f.qlab
    case XairField => f.xair
    case MusicField => f.music
    case PlaylistField => f.playlist
  }

  /** Typing into one input. */
  function WithField(f: Fields, name: FieldName, v: string): (r: Fields)
    ensures FieldValue(r, name) == v
    ensures forall other :: other != name ==> FieldValue(r, other) == FieldValue(f, other)
  {
    match name
    case TimerField => f.(timer := v)
    case PrimaryField => f.(primary := v)
    case SecondaryField => f.(secondary := v)
    case QlabField => f.(qlab := v)
    case XairField => f.(xair := v)
    case MusicField => f.(music := v)
    case PlaylistField => f.(playlist := v)
  }

  /** The save button's message: '' becomes null; a non-empty channel goes through `parseInt` (NaN is sent as null). */
  function SaveMessage(f: Fields): SavePatch
  {
    SavePatch(Js.OrNull(f.timer), Js.OrNull(f.primary), Js.OrNull(f.secondary), Js.OrNull(f.qlab),
              Js.OrNull(f.xair), if f.music != "" then Js.ParseInt(f.music) else None,
              Js.OrNull(f.playlist))
  }

  /**
   * The stored settings after the server has merged a save message, assumed here to be the
   * seven values replacing the stored ones (each is a primitive or null, which the server's
   * merge overwrites; this typed view is not proved against the merge on value trees).
   */
  function Apply(s: Configured, p: SavePatch): Configured
  {
    s.(timerAddress := p.timerAddress, primaryAddress := p.primaryAddress,
       secondaryAddress := p.secondaryAddress, qlabAddress := p.qlabAddress,
       xairAddress := p.xairAddress, musicChannel := p.musicChannel,
       defaultPlaylist := p.defaultPlaylist)
  }

  /** A sent value stands for a stored one: equal, or null for a stored empty string. */
  predicate SameOrBlank(sent: Option<string>, stored: Option<string>) {
    sent == stored || (sent.None? && stored == Some(""))
  }

  /** A settings message rebuilds the footer when there were no settings or the Spotify account changed. */
  predicate FooterChanged(previous: Option<Configured>, next: Configured) {
    previous.None? || next.userName != previous.value.userName || next.refreshToken != previous.value.refreshToken
  }

  /**
   * `populateSpotifyFooter`: connected (with the user's name when there is one) while a
   * refresh token is stored; otherwise a hint away from `localhost:9999`, else the connect button.
   */
  function FooterFor(settings: Option<Configured>, host: string): Footer
  {
    if settings.Some? && settings.value.refreshToken.Some? && Js.Truthy(settings.value.refreshToken.value) then
      var name := settings.value.userName;
      Connected("Connected to Spotify" + (if name.Some? && Js.Truthy(name.value) then " as " + name.value else ""))
    else if host != "localhost:9999" then
      NotLocal("Spotify not connected, load this page from the host computer via \"http://localhost:9999\" to connect Spotify")
    else ConnectButton
  }

  /**
   * The footer depends only on the Spotify account (user name and refresh token) and the
   * page's host, so skipping the rebuild when neither account field changed keeps it current.
   */
  lemma FooterDependsOnAccount(previous: Option<Configured>, next: Configured, host: string)
    requires previous.Some?
    requires !FooterChanged(previous, next)
    ensures FooterFor(Some(next), host) == FooterFor(previous, host)
  {
  }

  /**
   * Saving the form as it was filled in sends the stored settings back: every text as stored
   * (null for a stored empty string) and the channel itself.
   */
  lemma SaveUnedited(s: Configured)
    ensures var p := SaveMessage(Populated(Some(s)));
      SameOrBlank(p.timerAddress, s.timerAddress) && SameOrBlank(p.primaryAddress, s.primaryAddress)
      && SameOrBlank(p.secondaryAddress, s.secondaryAddress) && SameOrBlank(p.qlabAddress, s.qlabAddress)
      && SameOrBlank(p.xairAddress, s.xairAddress) && SameOrBlank(p.defaultPlaylist, s.defaultPlaylist)
      && p.musicChannel == s.musicChannel
  {
  }

  /**
   * Once the server has stored a save, filling the form in again gives back the fields that
   * were saved, provided the channel field held '' or an integer as `toString` writes it.
   */
  lemma SaveThenPopulate(s: Configured, f: Fields)
    requires f.music == "" || (Js.ParseInt(f.music).Some? && Js.IntToString(Js.ParseInt(f.music).value) == f.music)
    ensures Populated(Some(Apply(s, SaveMessage(f)))) == f
  {
  }

  class Form {
    /** `settings`: null until the first settings message. */
    var settings: Option<Configured>
    var fields: Fields
    /** The save and reset buttons are displayed. */
    var buttonsShown: bool
    /** `spotifyClientId` and `spotifyRedirectUri`, kept for the connect button. */
    var clientId: Option<string>
    var redirectUri: string
    /** The page's `window.location.host`. */
    var host: string
    /** The footer's content; None while it still holds the page's initial markup. */
    var footer: Option<Footer>

    /** The buttons are shown exactly while there are settings and some field differs from what was filled in. */
    ghost predicate Valid()
      reads this
    {
      buttonsShown <==> settings.Some? && fields != Populated(settings)
    }

    /** Once settings have arrived, the footer shows what the stored account calls for. */
    ghost predicate FooterCurrent()
      reads this
    {
      settings.Some? ==> footer == Some(FooterFor(settings, host))
    }

    constructor (initial: Fields, pageHost: string)
      ensures settings.None? && fields == initial && !buttonsShown
      ensures clientId.None? && redirectUri == "" && host == pageHost && footer.None?
      ensures FooterCurrent()
    {
      settings := None;
      fields := initial;
      buttonsShown := false;
      clientId := None;
      redirectUri := "";
      host := pageHost;
      footer := None;
    }

    /** `setButtons`: a field by field comparison with the settings, each against its value or ''. */
    method SetButtons()
      modifies this
      ensures Valid()
      ensures settings == old(settings) && fields == old(fields)
      ensures clientId == old(clientId) && redirectUri == old(redirectUri)
      ensures host == old(host) && footer == old(footer)
    {
      var changed := false;
      if settings.Some? && fields.timer != Js.OrEmpty(settings.value.timerAddress) { changed := true; }
      if settings.Some? && fields.primary != Js.OrEmpty(settings.value.primaryAddress) { changed := true; }
      if settings.Some? && fields.secondary != Js.OrEmpty(settings.value.secondaryAddress) { changed := true; }
      if settings.Some? && fields.qlab != Js.OrEmpty(settings.value.qlabAddress) { changed := true; }
      if settings.Some? && fields.xair != Js.OrEmpty(settings.value.xairAddress) { changed := true; }
      if settings.Some? && fields.music != ChannelText(settings.value.musicChannel) { changed := true; }
      if settings.Some? && fields.playlist != Js.OrEmpty(settings.value.defaultPlaylist) { changed := true; }
      buttonsShown := changed;
    }

    /** `populateValues` (also the reset button): the fields are filled in and the buttons hidden. */
    method PopulateValues()
      modifies this
      ensures Valid() && fields == Populated(settings) && !buttonsShown
      ensures settings == old(settings)
      ensures clientId == old(clientId) && redirectUri == old(redirectUri)
      ensures host == old(host) && footer == old(footer)
    {
      fields := Populated(settings);
      SetButtons();
    }

    /** Typing into an input re-runs `setButtons`. */
    method OnInput(name: FieldName, v: string)
      modifies this
      ensures Valid() && fields == WithField(old(fields), name, v)
      ensures settings.Some? && old(fields) == Populated(settings) ==>
        (buttonsShown <==> v != FieldValue(old(fields), name))
      ensures settings == old(settings)
      ensures clientId == old(clientId) && redirectUri == old(redirectUri)
      ensures host == old(host) && footer == old(footer)
    {
      fields := WithField(fields, name, v);
      SetButtons();
    }

    /** The save button: the message built from the fields; the buttons are recomputed. */
    method Save() returns (patch: SavePatch)
      modifies this
      ensures patch == SaveMessage(old(fields))
      ensures Valid() && fields == old(fields) && settings == old(settings)
      ensures clientId == old(clientId) && redirectUri == old(redirectUri)
      ensures host == old(host) && footer == old(footer)
    {
      patch := SaveMessage(fields);
      SetButtons();
    }

    /**
     * A settings message: the Spotify credentials are kept; when there were no settings or
     * the account changed the footer is rebuilt (`rebuilt` is its new content); the fields
     * are filled in again, which hides the buttons.
     */
    method OnSettings(next: Configured, nextClientId: Option<string>, nextRedirectUri: string)
      returns (rebuilt: Option<Footer>)
      requires FooterCurrent()
      modifies this
      ensures rebuilt.Some? <==> FooterChanged(old(settings), next)
      ensures rebuilt.Some? ==> rebuilt.value == FooterFor(Some(next), host)
      ensures footer == (if rebuilt.Some? then rebuilt else old(footer))
      ensures FooterCurrent() && host == old(host)
      ensures settings == Some(next) && clientId == nextClientId && redirectUri == nextRedirectUri
      ensures Valid() && fields == Populated(Some(next)) && !buttonsShown
    {
      clientId := nextClientId;
      redirectUri := nextRedirectUri;
      var changed := false;
      if settings.None? || next.userName != settings.value.userName {
        changed := true;
      }
      if settings.None? || next.refreshToken != settings.value.refreshToken {
        changed := true;
      }
      if !changed {
        FooterDependsOnAccount(settings, next, host);
      }
      settings := Some(next);
      rebuilt := if changed then Some(FooterFor(settings, host)) else None;
      if changed {
        footer := rebuilt;
      }
      PopulateValues();
    }
  }
}
