# Plex-to-Discord presence mapper, in Dafny

A model of the `poll` coroutine of a small bridge that mirrors one Plex user's playback as a
Discord "Watching ..." rich presence. Every 30 seconds the bridge lists the Plex server's active
sessions, selects at most one of them, and either pushes one activity derived from it or clears
the presence. This project models one tick of that loop, and nothing outside it:

- `wrappers.dfy` (`Wrappers`): `Option` for the attributes the code probes with `hasattr`/`getattr`,
  and `Result` for the session fetch that may raise.
- `pystr.dfy` (`PyStr`): the Python built-ins the mapper depends on, each with Python's semantics.
  These are `str(int)` (`Decimal`), `format(n, "02d")` (`Pad2`), `str.lstrip(chars)` (`LStripSet`,
  which strips a character set and not a prefix) and `str.capitalize` (`Capitalize`, on ASCII).
- `presence_mapper.dfy` (`PresenceMapper`): the session record and the activity record.
  It also holds user resolution, the first-match selection rule and the per-media-type line
  building (movie, episode, anything else), plus the paused flag and the elapsed-time window.
- `session_poller.dfy` (`SessionPoller`): `Tick` is the function that gives the presence one poll
  produces. `Poll` is the coroutine's own `for` loop with its early return, proved equal to `Tick`.

The clock is a parameter, `nowMs`: the value of `time.time()` in whole milliseconds. The code
computes `int(time.time() - viewOffset / 1000)` and `int(start + duration / 1000)`. The model does
the same arithmetic exactly on rationals, with truncation toward zero (`TruncSeconds`). One
consequence is proved in `WholeSecondClockStart`: at a whole-second clock, truncation rounds the
elapsed time UP, so the start is `now - ceil(viewOffset / 1000)`, not `now - floor(...)`.

The episode detail line follows the code, `f"{show} - {season}{ep}: {title}".lstrip(" -")`
(app.py:72). `lstrip` only removes spaces and dashes from the front of the whole line, and the
line starts with the show name. So when both codes are empty, the separator stays:
`"The Office - : Halloween"` (`EpisodeDetailsKeepsSeparator`). A show name that starts with
spaces or dashes loses only those leading characters, and the rest of the line is kept. The " - "
disappears only when the show name is made of spaces and dashes alone, the empty name included:
the strip then runs through the separator and into the codes (`EpisodeDetails`). The state line's `lstrip(": ")` (app.py:74) removes
the ": " when both codes are empty. It also removes any colons and spaces at the start of the
episode title (`EpisodeState`).

## Model

| member | source | states |
|---|---|---|
| PyStr.Digits | app.py:54 | the decimal rendering of a natural number is a non-empty digit string; it has one digit exactly for numbers below 10 and starts with '0' only for 0 |
| PyStr.DigitsRoundTrip | app.py:54 | reading back the rendered digits gives the number again |
| PyStr.DigitsCanonicalRoundTrip | app.py:54 | every digit string without a leading zero is the rendering of the number it denotes (the other direction of the round trip) |
| PyStr.Decimal | app.py:54 | `str(n)`: canonical digits for n >= 0, a '-' followed by canonical digits for n < 0 |
| PyStr.DecimalRoundTrip | app.py:54 | parsing `str(n)` gives back n, for every integer |
| PyStr.Pad2 | app.py:62-71 | `02d` yields at least two characters, exactly two digits for 0..99, a '0' in front of a single digit, and plain `str(n)` from 10 up and for negatives |
| PyStr.Pad2RoundTrip | app.py:62-71 | parsing the padded code gives back the season or episode number |
| PyStr.LStripSet | app.py:72-74 | `lstrip(chars)` returns a suffix of its input; every removed character is in the set and the first kept one is not |
| PyStr.LStripSetUnique | app.py:72-74 | those two properties determine the result: the cut is the first character outside the set |
| PyStr.LStripSetIdempotent | app.py:72-74 | stripping twice is the same as stripping once |
| PyStr.LStripSetKeeps | app.py:72-74 | a string starting outside the set is unchanged |
| PyStr.LStripSetSkips | app.py:72-74 | a prefix made only of set characters is removed and the strip continues into what follows |
| PyStr.LStripSetPrefix | app.py:72 | once the strip stops inside the front part of a string, whatever follows that part is kept whole |
| PyStr.Upper | app.py:80 | a lower-case ASCII letter maps to the upper-case letter 32 code points below; every other character is unchanged; the result is never lower case |
| PyStr.Lower | app.py:80 | an upper-case ASCII letter maps to the lower-case letter 32 code points above; every other character is unchanged; the result is never upper case |
| PyStr.CaseRoundTrip | app.py:80 | lower-casing an upper-cased letter gives the letter back, and the other way round |
| PyStr.CapitalizeWord | app.py:104 | a word with no upper-case letter after the first character has only its first character changed |
| PyStr.Capitalize | app.py:80 | `capitalize()` keeps the length, upper-cases the first letter and lower-cases every other letter |
| PyStr.CapitalizeNormalForm | app.py:80 | the result is always capitalized, a capitalized string is left unchanged, so capitalizing twice equals capitalizing once |
| PresenceMapper.Truthy | app.py:54-69 | an optional number counts as present exactly when it is neither absent nor 0, as Python truthiness has it for the year, the season and the episode |
| PresenceMapper.ResolveUser | app.py:35-41 | the nested user's title wins; otherwise the first username; the user is unknown exactly when neither exists |
| PresenceMapper.Qualifies | app.py:43-44 | a session qualifies exactly when its nested user title is the target, or it has no such title and its first username is the target, or it has neither (an unknown user) |
| PresenceMapper.FirstMatch | app.py:34-44 | the selected index holds a session of the target or of an unknown user, with no such session before it; nothing is selected exactly when no session qualifies |
| PresenceMapper.FirstMatchIsFirstQualifying | app.py:34-44 | any qualifying session with no qualifying session before it is the one selected, whatever follows |
| PresenceMapper.OtherUserNeverSelected | app.py:43-44 | a session resolved to some other user is never selected |
| PresenceMapper.PlayerState | app.py:45-49 | the player's state, "playing" when there is no player or it has no state |
| PresenceMapper.Paused | app.py:45-50 | paused exactly when the player reports a state other than "playing"; no player, or a player without a state, is never paused |
| PresenceMapper.MovieDetails | app.py:54-55 | the movie line is the title alone when the year is absent or 0, otherwise the title followed by " (year)" |
| PresenceMapper.Code | app.py:62-71 | a season or episode code is empty exactly when the number is absent or 0; otherwise it is the letter followed by a padded rendering that parses back to the number |
| PresenceMapper.EpisodeCodes | app.py:62-74 | the season-and-episode designator is empty exactly when both numbers are absent or 0, starts with 'S' when the season is truthy and with 'E' when only the episode is |
| PresenceMapper.CodedTitle | app.py:72-74 | "codes: title" is the codes, a colon, a space and the title; it starts with the first code letter, or with ':' when there are no codes |
| PresenceMapper.EpisodeDetails | app.py:72 | a show name with a character other than a space or dash keeps " - codes: title" whole after the show name stripped of its leading spaces and dashes, which is the whole line when the name starts with neither; a show name of spaces and dashes alone loses the separator, leaving the stripped "codes: title", which is "codes: title" when the codes start with a letter, or ": title" without codes |
| PresenceMapper.EpisodeState | app.py:74 | with codes, the state is "codes: title"; without codes, the title with its leading colons and spaces removed, which is the title itself when it starts with neither |
| PresenceMapper.MediaLines | app.py:53-81 | movie: icon "movie", state "Movie", the same name and details; episode: icon "tv", the show as name (default "Unknown Show"); other: icon "plex", the title as both lines (default "Media"), the capitalized type as state |
| PresenceMapper.EpisodeDetailsKeepsSeparator | app.py:72 | without codes, the detail line is "show - : title" |
| PresenceMapper.MovieActivity | app.py:53-58 | the movie activity has the same name and details, "title (year)" or just the title, the state "Movie" and the movie icon |
| PresenceMapper.EpisodeActivity | app.py:60-75 | the episode activity has the show as name and the tv icon; its details line is `EpisodeDetails` and its state line is `EpisodeState` of the show, the codes and the title, with the properties stated on those two |
| PresenceMapper.OtherActivity | app.py:77-81 | any other media type has the title (default "Media") on both lines, the capitalized type as state and the plex icon |
| PresenceMapper.TruncSeconds | app.py:90-93 | `int(ms / 1000)` truncates toward zero: the whole-second value lies within one second of the exact one, on the side of zero |
| PresenceMapper.ElapsedWindow | app.py:84-94 | the window exists exactly when the session is not paused and both the offset and the duration are known; when the offset is at most the clock reading and the duration is not negative, its start is the truncated `now - offset` and end minus start is the whole seconds of the duration |
| PresenceMapper.WholeSecondClockStart | app.py:90-93 | with a whole-second clock, start = now - ceil(offset / 1000) and end = start + floor(duration / 1000) |
| PresenceMapper.BuildActivity | app.py:96-106 | the small icon is "paused" exactly when paused; the small text is the capitalized player state; the large text is "Watching on Plex"; the timestamps are exactly the elapsed-time window, present only when not paused and both times are known; name equals details except for episodes |
| PresenceMapper.CapitalizePaused | app.py:104 | the paused small text reads "Paused" |
| PresenceMapper.CapitalizePlaying | app.py:104 | the playing small text reads "Playing" |
| PresenceMapper.HalloweenExample | app.py:60-106 | the paused episode S2 E5 "Halloween" of "The Office" reads "S02E05: Halloween" and "The Office - S02E05: Halloween", shows "paused" and has no timestamps |
| PresenceMapper.DuneExample | app.py:53-106 | the playing movie "Dune" (2021) at 600 s of 9000 s reads "Dune (2021)" on both lines, with the bar from now - 600 to now - 600 + 9000 |
| SessionPoller.Tick | app.py:27-112 | a failed fetch clears the presence; after a successful fetch the presence is cleared exactly when no session belongs to the target or to an unknown user |
| SessionPoller.Poll | app.py:26-112 | the scan in list order with an early return produces exactly the presence `Tick` describes, one per tick, determined by its inputs alone |
| SessionPoller.FetchFailureClears | app.py:27-32 | a fetch that raises leads to a clear and nothing propagates |
| SessionPoller.EmptyListClears | app.py:34-112 | an empty session list leads to a clear |
| SessionPoller.FirstQualifyingShown | app.py:34-109 | the first qualifying session in list order is displayed, even when later ones also qualify |
| SessionPoller.OtherUsersSkipped | app.py:34-44 | sessions of other users at the front of the list do not change the outcome |
| SessionPoller.PausedHasNoTimestamps | app.py:84-109 | when the selected session is paused, an activity is displayed and it has no timestamps |

## Left out

- The Discord client, `on_ready`, `client.run` and `change_presence` are foreign library calls (app.py:16-22, 108, 115). The model returns the presence a tick pushes (`Clear` or `Set(activity)`); the activity type, always "watching", is implicit.
- The Plex connection and `plex.sessions()` are network I/O (app.py:14, 28). Their outcome is the input `fetched`, either a list or a `FetchError`.
- The `tasks.loop(seconds=30)` timer and the async scheduling (app.py:25-26) are event-loop plumbing. The model is one tick, and ticks share no state.
- Environment and configuration loading and the `print` logging are left out (app.py:9-12, 21, 30). The target user is a parameter; `DefaultTargetUser` records its default, "KeeCinema".
- `time.time()` is a float in seconds. It is modelled as an exact integer count of milliseconds (`nowMs`), so float rounding in the subtraction and division is not modelled.
- `hasattr`/`getattr` probing becomes `Option` fields, and None stands both for an absent attribute and for one set to None. The code tells the two apart in these places, and the model does not:
  - A `user` whose `title` attribute exists but is None resolves to an unknown user in the code, without consulting `usernames`. The model consults `usernames`.
  - A `grandparentTitle` that exists but is None renders as "None" inside the detail line, and the name field receives the None object itself (app.py:61, 72-73). The model uses "Unknown Show" for both.
  - For other media types, a `title` that exists but is None makes `getattr(session, "title", "Media")` (app.py:78) return None, which is sent as both name and details. The model sends "Media".
  - On a movie or episode, a `title` that exists but is None does not raise: the f-strings at app.py:55, 72 and 74 render it as "None". The model excludes this case along with the missing attribute, through the precondition below.
- Reading `session.title` on a movie or episode without the attribute raises `AttributeError`. This path is not modelled. The displayed session must carry a title (`HasRequiredTitle`, `Renderable`, preconditions of `BuildActivity`, `Tick` and `Poll`); as said above, this also leaves out a title set to None on those types.
- A player state that is present but None makes the code fail at `capitalize()`. This case is not modelled: a state is a string or absent.
- PyStr.Capitalize: covers ASCII letters only. Python maps every Unicode letter, and since 3.8 it title-cases the first character; other characters are kept unchanged here.
