/** The presence mapper of the Plex-to-Discord bridge: resolves whose session
    each media-server session record is, picks the first one to show, and
    turns it into the Discord activity that is displayed ("Watching ..."). */
module PresenceMapper {
  import opened Wrappers
  import opened PyStr

  // ---------------------------------------------------------------------------
  // Data model
  // ---------------------------------------------------------------------------

  /** The user the bridge mirrors when the environment does not name one. */
  const DefaultTargetUser: string := "KeeCinema"

  /** The nested `session.user` object; `title` is None when the attribute is missing. */
  datatype PlexUser = PlexUser(title: Option<string>)

  /** The `session.player` object; `state` is None when the attribute is missing. */
  datatype Player = Player(state: Option<string>)

  /** One active playback session as the media server reports it. Every
      attribute the mapper probes with `hasattr`/`getattr` is an Option
      (None = attribute absent or None); `mediaType` is the record's `type`. */
  datatype Session = Session(
    user: Option<PlexUser>,
    usernames: Option<seq<string>>,
    player: Option<Player>,
    mediaType: string,
    title: Option<string>,
    year: Option<int>,
    grandparentTitle: Option<string>,
    parentIndex: Option<int>,
    index: Option<int>,
    viewOffset: Option<int>,
    duration: Option<int>)

  /** The elapsed-time bar, in whole epoch seconds. */
  datatype Timestamps = Timestamps(start: int, end: int)

  /** The activity pushed to Discord; its type is always "watching". */
  datatype Activity = Activity(
    name: string,
    details: string,
    state: string,
    largeImage: string,
    largeText: string,
    smallImage: string,
    smallText: string,
    timestamps: Option<Timestamps>)

  /** What one poll asks Discord to display: nothing, or one activity. */
  datatype Presence = Clear | Set(activity: Activity)

  /** Python truthiness of an optional integer attribute: absent and 0 are false. */
  predicate Truthy(n: Option<int>)
    ensures Truthy(n) <==> n != None && n != Some(0)
  {
    n.Some? && n.value != 0
  }

  // ---------------------------------------------------------------------------
  // Session selection
  // ---------------------------------------------------------------------------

  predicate HasUserTitle(s: Session) {
    s.user.Some? && s.user.value.title.Some?
  }

  predicate HasUsername(s: Session) {
    s.usernames.Some? && s.usernames.value != []
  }

  /** Whose session this is: the nested user's title, else the first of the
      usernames, else unknown (None). */
  function ResolveUser(s: Session): (u: Option<string>)
    ensures HasUserTitle(s) ==> u == s.user.value.title
    ensures !HasUserTitle(s) && HasUsername(s) ==> u == Some(s.usernames.value[0])
    ensures u.None? <==> !HasUserTitle(s) && !HasUsername(s)
  {
    if HasUserTitle(s) then s.user.value.title
    else if HasUsername(s) then Some(s.usernames.value[0])
    else None
  }

  /** A session may be shown when it belongs to the target user or its user
      cannot be resolved (an unknown user is a wildcard). */
  predicate Qualifies(s: Session, target: string)
    ensures Qualifies(s, target) <==>
      || (HasUserTitle(s) && s.user.value.title.value == target)
      || (!HasUserTitle(s) && HasUsername(s) && s.usernames.value[0] == target)
      || (!HasUserTitle(s) && !HasUsername(s))
  {
    var u := ResolveUser(s);
    u == Some(target) || u.None?
  }

  /** The position of the first qualifying session, if any. */
  function FirstMatch(sessions: seq<Session>, target: string): (r: Option<nat>)
    ensures r.Some? ==> r.value < |sessions| && Qualifies(sessions[r.value], target)
    ensures r.Some? ==> forall j :: 0 <= j < r.value ==> !Qualifies(sessions[j], target)
    ensures r.None? <==> forall j :: 0 <= j < |sessions| ==> !Qualifies(sessions[j], target)
    decreases |sessions|
  {
    if sessions == [] then None
    else if Qualifies(sessions[0], target) then Some(0)
    else match FirstMatch(sessions[1..], target)
      case None => None
      case Some(k) => Some(k + 1)
  }

  /** The first-match rule stated without FirstMatch: a qualifying session with
      no qualifying session before it is the one selected. */
  lemma FirstMatchIsFirstQualifying(sessions: seq<Session>, target: string, i: nat)
    requires i < |sessions| && Qualifies(sessions[i], target)
    requires forall j :: 0 <= j < i ==> !Qualifies(sessions[j], target)
    ensures FirstMatch(sessions, target) == Some(i)
  {
  }

  /** A session that resolves to some other user is never selected. */
  lemma OtherUserNeverSelected(sessions: seq<Session>, target: string, i: nat)
    requires i < |sessions|
    requires ResolveUser(sessions[i]).Some? && ResolveUser(sessions[i]).value != target
    ensures FirstMatch(sessions, target) != Some(i)
  {
  }

  // ---------------------------------------------------------------------------
  // Payload derivation
  // ---------------------------------------------------------------------------

  /** `session.title` is read without a default on movies and episodes (a
      missing one raises), so those sessions must carry it. */
  predicate HasRequiredTitle(s: Session) {
    (s.mediaType == "movie" || s.mediaType == "episode") ==> s.title.Some?
  }

  /** The player's state, "playing" when there is no player or it has no state. */
  function PlayerState(s: Session): (st: string)
    ensures s.player.None? ==> st == "playing"
    ensures s.player.Some? ==> st == s.player.value.state.GetOr("playing")
  {
    match s.player
    case Some(p) => p.state.GetOr("playing")
    case None => "playing"
  }

  /** Paused means any player state other than "playing"; a session without a
      player, or whose player has no state, is never paused. */
  predicate Paused(s: Session)
    ensures Paused(s) <==> s.player.Some? && s.player.value.state.Some? && s.player.value.state.value != "playing"
  {
    PlayerState(s) != "playing"
  }

  /** The movie line: the title, with " (year)" when the year is truthy. */
  function MovieDetails(title: string, year: Option<int>): (d: string)
    ensures !Truthy(year) ==> d == title
    ensures Truthy(year) ==> d == title + " (" + Decimal(year.value) + ")"
  {
    if Truthy(year) then title + " (" + Decimal(year.value) + ")" else title
  }

  /** A zero-padded code such as "S02" for a truthy number, "" otherwise. */
  function Code(letter: char, n: Option<int>): (c: string)
    ensures c == [] <==> !Truthy(n)
    ensures c != [] ==> c[0] == letter && |c| >= 3 && c[1..] == Pad2(n.value) && ParseInt(c[1..]) == n.value
  {
    if Truthy(n) then
      Pad2RoundTrip(n.value);
      assert ([letter] + Pad2(n.value))[1..] == Pad2(n.value);
      [letter] + Pad2(n.value)
    else ""
  }

  /** The season-and-episode designator, e.g. "S02E05": empty exactly when
      both numbers are falsy, and otherwise starting with the letter of the
      first truthy number. */
  function EpisodeCodes(s: Session): (c: string)
    ensures c == [] <==> !Truthy(s.parentIndex) && !Truthy(s.index)
    ensures Truthy(s.parentIndex) ==> c[0] == 'S'
    ensures !Truthy(s.parentIndex) && Truthy(s.index) ==> c[0] == 'E'
  {
    Code('S', s.parentIndex) + Code('E', s.index)
  }

  /** The characters `lstrip(" -")` removes from the detail line. */
  const DetailStrip: set<char> := {' ', '-'}

  /** The characters `lstrip(": ")` removes from the state line. */
  const StateStrip: set<char> := {':', ' '}

  /** Every character of `s` is one the strip removes. */
  predicate AllIn(s: string, chars: set<char>) {
    forall i :: 0 <= i < |s| ==> s[i] in chars
  }

  /** The text both episode lines are built around, `f"{season}{ep}: {title}"`. */
  function CodedTitle(codes: string, title: string): (t: string)
    ensures |t| == |codes| + 2 + |title|
    ensures t[0] == if codes == [] then ':' else codes[0]
    ensures codes == [] ==> t == ": " + title
  {
    codes + ": " + title
  }

  /** The episode detail line, `f"{show} - {codes}: {title}".lstrip(" -")`.
      The strip works on the whole line, which starts with the show name. A
      show name with any other character loses only its own leading spaces and
      dashes, so the " - " stays even without codes; only a show name made of
      spaces and dashes alone (for instance the empty one) lets the strip run
      through the separator. */
  function EpisodeDetails(show: string, codes: string, title: string): (d: string)
    ensures !AllIn(show, DetailStrip) ==> d == LStripSet(show, DetailStrip) + " - " + CodedTitle(codes, title)
    ensures show != [] && show[0] !in DetailStrip ==> d == show + " - " + CodedTitle(codes, title)
    ensures AllIn(show, DetailStrip) ==> d == LStripSet(CodedTitle(codes, title), DetailStrip)
    ensures AllIn(show, DetailStrip) && codes != [] && codes[0] !in DetailStrip ==> d == CodedTitle(codes, title)
    ensures AllIn(show, DetailStrip) && codes == [] ==> d == ": " + title
  {
    var rest := CodedTitle(codes, title);
    var line := show + " - " + rest;
    if !AllIn(show, DetailStrip) then
      assert LStripSet(show, DetailStrip) != [];
      LStripSetPrefix(show, " - ", DetailStrip);
      LStripSetPrefix(show + " - ", rest, DetailStrip);
      if show[0] !in DetailStrip then
        LStripSetKeeps(show, DetailStrip);
        LStripSet(line, DetailStrip)
      else
        LStripSet(line, DetailStrip)
    else
      assert AllIn(show + " - ", DetailStrip);
      LStripSetSkips(show + " - ", rest, DetailStrip);
      if codes == [] || codes[0] !in DetailStrip then
        LStripSetKeeps(rest, DetailStrip);
        LStripSet(line, DetailStrip)
      else
        LStripSet(line, DetailStrip)
  }

  /** The episode state line, `f"{codes}: {title}".lstrip(": ")`: the codes,
      ": " and the title when there are codes; without them, the ": " goes and
      so do any colons and spaces that begin the title itself. */
  function EpisodeState(codes: string, title: string): (st: string)
    ensures codes != [] && codes[0] !in StateStrip ==> st == CodedTitle(codes, title)
    ensures codes == [] ==> st == LStripSet(title, StateStrip)
    ensures codes == [] && (title == [] || title[0] !in StateStrip) ==> st == title
  {
    var line := CodedTitle(codes, title);
    if codes != [] && codes[0] !in StateStrip then
      LStripSetKeeps(line, StateStrip);
      LStripSet(line, StateStrip)
    else if codes == [] then
      LStripSetSkips(": ", title, StateStrip);
      if title != [] && title[0] !in StateStrip then
        LStripSetKeeps(title, StateStrip);
        LStripSet(line, StateStrip)
      else
        LStripSet(line, StateStrip)
    else
      LStripSet(line, StateStrip)
  }

  /** The three text lines and the large icon, per media type. */
  datatype Lines = Lines(name: string, details: string, state: string, largeImage: string)

  function MediaLines(s: Session): (l: Lines)
    requires HasRequiredTitle(s)
    ensures s.mediaType == "movie" ==> l.largeImage == "movie" && l.state == "Movie" && l.name == l.details
    ensures s.mediaType == "episode" ==> l.largeImage == "tv" && l.name == s.grandparentTitle.GetOr("Unknown Show")
    ensures s.mediaType != "movie" && s.mediaType != "episode" ==>
      l.largeImage == "plex" && l.name == l.details == s.title.GetOr("Media") && l.state == Capitalize(s.mediaType)
  {
    if s.mediaType == "movie" then
      var details := MovieDetails(s.title.value, s.year);
      Lines(details, details, "Movie", "movie")
    else if s.mediaType == "episode" then
      var show := s.grandparentTitle.GetOr("Unknown Show");
      var codes := EpisodeCodes(s);
      Lines(show, EpisodeDetails(show, codes, s.title.value), EpisodeState(codes, s.title.value), "tv")
    else
      var details := s.title.GetOr("Media");
      Lines(details, details, Capitalize(s.mediaType), "plex")
  }

  /** Python's `int(x)` of `ms / 1000`: whole seconds, truncated toward zero. */
  function TruncSeconds(ms: int): (sec: int)
    ensures ms >= 0 ==> 0 <= sec * 1000 <= ms < sec * 1000 + 1000
    ensures ms < 0 ==> sec * 1000 - 1000 < ms <= sec * 1000 <= 0
  {
    if ms >= 0 then ms / 1000 else -((-ms) / 1000)
  }

  /** The elapsed-time window, for a clock reading `nowMs` in milliseconds:
      start = int(now - viewOffset/1000), end = int(start + duration/1000). */
  function ElapsedWindow(s: Session, nowMs: int): (w: Option<Timestamps>)
    ensures w.Some? <==> !Paused(s) && s.viewOffset.Some? && s.duration.Some?
    ensures w.Some? && s.viewOffset.value <= nowMs && s.duration.value >= 0 ==>
      w.value.start * 1000 <= nowMs - s.viewOffset.value < w.value.start * 1000 + 1000 &&
      w.value.end - w.value.start == s.duration.value / 1000
  {
    if !Paused(s) && s.viewOffset.Some? && s.duration.Some? then
      var start := TruncSeconds(nowMs - s.viewOffset.value);
      Some(Timestamps(start, TruncSeconds(start * 1000 + s.duration.value)))
    else None
  }

  /** The activity displayed for the selected session. */
  function BuildActivity(s: Session, nowMs: int): (a: Activity)
    requires HasRequiredTitle(s)
    ensures a.smallImage == "paused" <==> Paused(s)
    ensures a.smallImage == (if Paused(s) then "paused" else "playing")
    ensures a.smallText == Capitalize(PlayerState(s))
    ensures a.largeText == "Watching on Plex"
    ensures a.timestamps.Some? <==> !Paused(s) && s.viewOffset.Some? && s.duration.Some?
    ensures Paused(s) ==> a.timestamps.None?
    ensures a.timestamps == ElapsedWindow(s, nowMs)
    ensures a.largeImage in {"movie", "tv", "plex"}
    ensures s.mediaType != "episode" ==> a.name == a.details
  {
    var lines := MediaLines(s);
    Activity(
      lines.name, lines.details, lines.state, lines.largeImage, "Watching on Plex",
      if Paused(s) then "paused" else "playing",
      Capitalize(PlayerState(s)),
      ElapsedWindow(s, nowMs))
  }

  // ---------------------------------------------------------------------------
  // Properties of the derived lines
  // ---------------------------------------------------------------------------

  /** Without codes, the separator " - " is NOT removed: the detail line reads
      "<show> - : <title>". */
  lemma EpisodeDetailsKeepsSeparator(show: string, title: string)
    requires show != [] && show[0] !in DetailStrip
    ensures EpisodeDetails(show, "", title) == show + " - : " + title
  {
    assert show + " - " + (": " + title) == show + " - : " + title;
  }

  /** The movie activity: title with " (year)" when the year is truthy, shown
      on both lines, state "Movie", the movie icon. */
  lemma MovieActivity(s: Session, nowMs: int)
    requires s.mediaType == "movie" && s.title.Some?
    ensures var a := BuildActivity(s, nowMs);
      && a.name == a.details
      && (Truthy(s.year) ==> a.details == s.title.value + " (" + Decimal(s.year.value) + ")")
      && (!Truthy(s.year) ==> a.details == s.title.value)
      && a.state == "Movie"
      && a.largeImage == "movie"
  {
  }

  /** The episode activity: the show as the name (default "Unknown Show"),
      the tv icon, and the detail and state lines of EpisodeDetails and
      EpisodeState, whose contracts give their every case. */
  lemma EpisodeActivity(s: Session, nowMs: int)
    requires s.mediaType == "episode" && s.title.Some?
    ensures var a := BuildActivity(s, nowMs);
      var show := s.grandparentTitle.GetOr("Unknown Show");
      && a.name == show
      && a.largeImage == "tv"
      && a.details == EpisodeDetails(show, EpisodeCodes(s), s.title.value)
      && a.state == EpisodeState(EpisodeCodes(s), s.title.value)
  {
    var lines := MediaLines(s);
    assert lines.details == EpisodeDetails(s.grandparentTitle.GetOr("Unknown Show"), EpisodeCodes(s), s.title.value);
    assert lines.state == EpisodeState(EpisodeCodes(s), s.title.value);
  }

  /** Any other media type: the title (default "Media") on both lines, the
      capitalized type as the state, the generic icon. */
  lemma OtherActivity(s: Session, nowMs: int)
    requires s.mediaType != "movie" && s.mediaType != "episode"
    ensures var a := BuildActivity(s, nowMs);
      && a.name == a.details == s.title.GetOr("Media")
      && a.state == Capitalize(s.mediaType)
      && a.largeImage == "plex"
  {
  }

  /** With a whole-second clock, truncation toward zero rounds the elapsed
      seconds UP: start = now - ceil(viewOffset / 1000). */
  lemma WholeSecondClockStart(s: Session, now: int)
    requires !Paused(s) && s.viewOffset.Some? && s.duration.Some?
    requires 0 <= s.viewOffset.value <= now * 1000 && s.duration.value >= 0
    ensures var w := ElapsedWindow(s, now * 1000);
      && w.Some?
      && w.value.start == now - (s.viewOffset.value + 999) / 1000
      && w.value.end == w.value.start + s.duration.value / 1000
  {
    var v := s.viewOffset.value;
    var q := (v + 999) / 1000;
    assert q * 1000 - 999 <= v <= q * 1000;
    var w := ElapsedWindow(s, now * 1000);
    assert (now - q) * 1000 <= now * 1000 - v < (now - q) * 1000 + 1000;
    assert w.value.start == now - q;
  }

  // ---------------------------------------------------------------------------
  // Worked examples
  // ---------------------------------------------------------------------------

  lemma CapitalizePaused()
    ensures Capitalize("paused") == "Paused"
  {
    CapitalizeWord("paused");
    assert Upper('p') == 'P';
    assert ['P'] + "aused" == "Paused";
  }

  lemma CapitalizePlaying()
    ensures Capitalize("playing") == "Playing"
  {
    CapitalizeWord("playing");
    assert Upper('p') == 'P';
    assert ['P'] + "laying" == "Playing";
  }

  /** The codes of season 2, episode 5. */
  lemma SeasonTwoEpisodeFive()
    ensures Code('S', Some(2)) + Code('E', Some(5)) == "S02E05"
  {
    assert Pad2(2) == ['0', DigitChar(2)] && DigitChar(2) == '2';
    assert Pad2(5) == ['0', DigitChar(5)] && DigitChar(5) == '5';
  }

  /** Proof step for HalloweenExample: the coded title "S02E05: Halloween". */
  lemma HalloweenCodedTitle()
    ensures CodedTitle("S02E05", "Halloween") == "S02E05: Halloween"
    ensures EpisodeState("S02E05", "Halloween") == "S02E05: Halloween"
  {
    assert "S02E05"[0] !in StateStrip;
  }

  /** Proof step for HalloweenExample: the detail line for "The Office". */
  lemma HalloweenDetails()
    ensures EpisodeDetails("The Office", "S02E05", "Halloween") == "The Office - S02E05: Halloween"
  {
    HalloweenCodedTitle();
    assert "The Office"[0] !in DetailStrip;
    assert "The Office" + " - " + "S02E05: Halloween" == "The Office - S02E05: Halloween";
  }

  /** A paused episode: "S02E05: Halloween", "The Office - S02E05: Halloween",
      and no elapsed-time bar. */
  lemma HalloweenExample(nowMs: int)
    ensures var s := Session(None, None, Some(Player(Some("paused"))), "episode", Some("Halloween"),
                             None, Some("The Office"), Some(2), Some(5), Some(60000), Some(1320000));
      var a := BuildActivity(s, nowMs);
      && a.name == "The Office"
      && a.state == "S02E05: Halloween"
      && a.details == "The Office - S02E05: Halloween"
      && a.largeImage == "tv"
      && a.smallImage == "paused"
      && a.smallText == "Paused"
      && a.timestamps == None
  {
    var s := Session(None, None, Some(Player(Some("paused"))), "episode", Some("Halloween"),
                     None, Some("The Office"), Some(2), Some(5), Some(60000), Some(1320000));
    SeasonTwoEpisodeFive();
    EpisodeActivity(s, nowMs);
    CapitalizePaused();
    var a := BuildActivity(s, nowMs);
    assert PlayerState(s) == "paused";
    HalloweenCodedTitle();
    HalloweenDetails();
  }

  /** Proof step for DuneExample: the movie line for the year 2021. */
  lemma DuneYear()
    ensures MovieDetails("Dune", Some(2021)) == "Dune (2021)"
  {
    assert Digits(2) == "2" && Digits(20) == "20" && Digits(202) == "202";
    assert Decimal(2021) == "2021";
    assert "Dune" + " (" + "2021" + ")" == "Dune (2021)";
  }

  /** A playing movie at a whole-second clock `now`: "Dune (2021)" on both
      lines and the bar from now - 600 to now - 600 + 9000. */
  lemma DuneExample(now: int)
    requires now >= 600
    ensures var s := Session(None, None, Some(Player(Some("playing"))), "movie", Some("Dune"),
                             Some(2021), None, None, None, Some(600000), Some(9000000));
      var a := BuildActivity(s, now * 1000);
      && a.name == "Dune (2021)"
      && a.details == "Dune (2021)"
      && a.state == "Movie"
      && a.largeImage == "movie"
      && a.smallImage == "playing"
      && a.smallText == "Playing"
      && a.timestamps == Some(Timestamps(now - 600, now - 600 + 9000))
  {
    var s := Session(None, None, Some(Player(Some("playing"))), "movie", Some("Dune"),
                     Some(2021), None, None, None, Some(600000), Some(9000000));
    DuneYear();
    MovieActivity(s, now * 1000);
    WholeSecondClockStart(s, now);
    CapitalizePlaying();
    assert PlayerState(s) == "playing";
  }
}
