# BarScreenSaver core, modelled in Dafny

BarScreenSaver (`main.py`) is a Windows audio visualiser. A background thread
pushes spectrum frames into a queue. A Tkinter window drains that queue on a
timer and polls the visible window titles for the currently playing media. When
the title, artist or description matches a configured advertisement keyword, it
mutes every audio session and shows an "AD" indicator until the advertisement
ends.

This project models the deterministic decisions inside that program and proves
what they guarantee:

- `PyStr`: the Python string operations `main.py` calls. These are
  `str.lower` (ASCII and Latin-1), `str.strip()`, the substring test
  `sub in s`, `str.split(sep)` and `sep.join(parts)`. Two helpers sit
  underneath them. One is the whitespace set `strip()` removes. The other,
  `FindFirst`, is the first-occurrence search that `in` and `split` share.
- `AdDetection`: `is_advertisement`, with the configured `ad_keywords` passed
  in.
- `MediaInfo`: `get_media_info` over an input list of enumerated windows.
  `enum_handler` becomes `CollectTitles`, a loop appending to `titles`. The
  module also covers the fixed "no media" answer and the split of the first
  candidate title at the first `" - "`.
- `AdMute`: the pure description of the `mute_all_audio` calls that `update_ui`
  issues over any run of advertisement classifications.
- `Colors`: `hex_to_rgb`, `rgb_to_hex` and the per-bar gradient colour of
  `_init_bars`.
- `Visualizer`: the class `Visualizer` and its fields, `update_ui` and
  `update_visuals`, plus `queue.Queue` as the class `FrameQueue`.
  `mute_all_audio` is recorded as an appended log entry (`true` for
  mute). The ghost history of classifications ties that log to
  `AdMute.MuteCalls`.
- `Wrappers`: `Option`, for Python's `None`.

Inputs that come from the operating system or the GUI are parameters. The
windows `EnumWindows` reports are a sequence of `Window(visible, title, pid)`.
The selected process id is `selectPid`. The configured keywords are `keywords`.
The canvas item created for the advertisement indicator is `newIndicator`.

`main.py` has no countdown after an advertisement ends and no remote media API
or OAuth token handling. Its frame queue is an unbounded `queue.Queue` that
never drops frames. The model has none of these either.

## Model

| member | source | states |
|---|---|---|
| PyStr.FindFirst | main.py:172-173 | the search behind `" - " in title` and the first cut of `title.split(" - ")`: the result is the first index where the substring occurs, and `None` exactly when it occurs nowhere |
| PyStr.Contains | main.py:172 | `sub in s` holds exactly when `sub` occurs at some index of `s` |
| PyStr.LowerChar | main.py:69 | lower-casing one character changes it exactly when it is a capital, never leaves a capital, and keeps whitespace as whitespace |
| PyStr.Lower | main.py:69 | `lower()` keeps the length, leaves no capital, and keeps every other character as it is |
| PyStr.Strip | main.py:69 | `strip()` returns the slice that starts after the leading whitespace, is followed only by whitespace, and neither starts nor ends with whitespace |
| PyStr.LeadingSpaces | main.py:69 | the count of leading whitespace characters: all of them are whitespace and the next one is not |
| PyStr.TrailingSpaces | main.py:176 | the count of trailing whitespace characters, likewise from the end |
| PyStr.OccursStrip | main.py:69-70 | an occurrence of a keyword that does not start or end with whitespace survives `strip()`, shifted by the stripped prefix |
| PyStr.ContainsUnstrip | main.py:69-70 | a keyword found in the stripped text is found in the unstripped text |
| PyStr.UpperNeverOccurs | main.py:69-70 | a substring holding a character that `lower()` changes never occurs in lower-cased text |
| PyStr.Split | main.py:173 | `split(sep)` gives at least one part, and no part contains the separator |
| PyStr.Join | main.py:176 | `sep.join(parts)` starts with the first part, followed by an occurrence of `sep` when there are two or more parts |
| PyStr.JoinSplit | main.py:173-176 | `sep.join(s.split(sep)) == s` for every non-empty separator |
| PyStr.SplitAtFirst | main.py:173-176 | when the separator occurs, `split` has at least two parts; the first is the text before the first occurrence, and the rest join back to the text after it |
| PyStr.FirstOccurrenceCut | main.py:172-176 | the first occurrence cuts the string into prefix + separator + rest, and the prefix holds no separator |
| AdDetection.Normalized | main.py:69 | `str(text).lower().strip()` is no longer than the text, and neither starts nor ends with whitespace |
| AdDetection.IsAdvertisement | main.py:65-70 | `None` and `""` are never advertisements; an empty keyword list never matches; an empty keyword matches every non-empty text |
| AdDetection.UppercaseKeywordIgnored | main.py:65-70 | adding a keyword that holds a character `lower()` changes never changes the classification |
| AdDetection.KeywordInTextDetected | main.py:65-70 | a non-empty, lower-case keyword without surrounding whitespace that occurs in the lower-cased text makes it an advertisement |
| AdDetection.AdvertisementHasKeyword | main.py:65-70 | every advertisement has a keyword occurring in its lower-cased text |
| AdDetection.AdvertisementIff | main.py:65-70 | with such keywords, a text is an advertisement exactly when some keyword occurs in its lower-cased form |
| AdDetection.CaseInsensitive | main.py:69 | lower-casing the text first does not change the classification |
| AdDetection.NormalizedHasNoUpper | main.py:69 | the normalised text holds no character that `lower()` changes |
| MediaInfo.IsPlayerTitle | main.py:157-160 | a title naming a known player is non-empty and at least three characters long |
| MediaInfo.PlayerTitleCaseInsensitive | main.py:158 | the player-name test gives the same answer for a title and its lower-cased form |
| MediaInfo.IsCandidate | main.py:145-161 | a kept window is visible and has a non-empty title; with a pid selected, it is owned by that pid |
| MediaInfo.CandidateTitles | main.py:142-163 | the collected titles are at most as many as the windows, and none of them is empty |
| MediaInfo.CandidateTitlesMembership | main.py:152-161 | a title is collected exactly when a visible window carries it that is either owned by the selected pid with a non-empty title, or, with no pid selected, has a non-empty title naming a known player |
| MediaInfo.CandidateTitlesAppend | main.py:144-163 | collecting over two runs of windows gives the two collections concatenated, so enumeration order is kept |
| MediaInfo.FirstCandidate | main.py:163-170 | `titles[0]` is the title of the first qualifying window in enumeration order |
| MediaInfo.CollectTitles | main.py:142-163 | the loop that appends to `titles` yields exactly the titles of the qualifying windows, in order |
| MediaInfo.ParseTitle | main.py:170-182 | an artist is reported exactly when the title contains `" - "`; the description is always `None` |
| MediaInfo.ParseTitleDelimited | main.py:172-180 | a delimited title gives `(strip(prefix), strip(suffix), None)`, where prefix + `" - "` + suffix is the title and the prefix holds no `" - "` |
| MediaInfo.ParseTitleUndelimited | main.py:181-182 | a title without `" - "` is returned unchanged as `(title, None, None)` |
| MediaInfo.MediaFor | main.py:166-182 | the description is present exactly when no window qualifies, and then the result is the `("Kein Titel", "Keine Wiedergabe", "")` sentinel |
| MediaInfo.GetMediaInfo | main.py:141-182 | with no candidates the result is `("Kein Titel", "Keine Wiedergabe", "")`; otherwise it is the parse of the first candidate |
| AdMute.AdTransition | main.py:387-401 | one classification issues at most one call; it issues none when the state does not change; otherwise it mutes on entering an advertisement and unmutes on leaving one |
| AdMute.MuteCalls | main.py:384-401 | a run of classifications issues at most one call per classification |
| AdMute.MuteCallsSnoc | main.py:384-408 | each further classification appends exactly the calls of its own transition to the log |
| AdMute.MuteCallsAlternate | main.py:386-401 | over any run of classifications the calls strictly alternate, the first one leaving the starting state; there is an odd number of them exactly when the run ends in the other state |
| AdMute.UnmuteFollowsMute | main.py:387-401 | starting without an advertisement, every unmute call directly follows a mute call |
| AdMute.RepeatedSignalSilent | main.py:387-401 | repeating the current classification issues no call |
| AdMute.MuteScenario | main.py:384-401 | the classifications not-ad, ad, not-ad issue exactly one mute followed by one unmute |
| Colors.HexDigitValue | main.py:472 | a hexadecimal digit of either case has a value in 0..15 |
| Colors.ParseHexSlice | main.py:472 | `int(h[i:i+2], 16)` is a value in -15..255 when it does not raise; it skips only the whitespace `int()` skips |
| Colors.IntSpaceCases | main.py:472 | `int(" 5", 16)` and `int("5\xa0", 16)` give 5, while a U+001C or U+001F next to the digit raises, so `hex_to_rgb("#\x1c5\x1c5\x1c5")` raises |
| Colors.LStripHash | main.py:471 | `lstrip("#")` removes exactly the leading `#` characters: the result is a suffix that does not start with `#`, and everything removed is `#` |
| Colors.HexToRgb | main.py:470-472 | when `hex_to_rgb` does not raise, at least five characters follow the `#`s and every component is in -15..255 |
| Colors.PySlice | main.py:472 | a Python slice `s[i:j]` is at most `j - i` long |
| Colors.HexChar | main.py:475 | the digit the `X` format writes for `d` parses back to `d` |
| Colors.HexDigits | main.py:475 | the `X` digits of `n` are hexadecimal digits, one for `n < 16` and two for `16 <= n < 256` |
| Colors.HexByte | main.py:475 | `f"{n:02X}"` is at least two characters long, starts with `-` for a negative value, and is a pair of hexadecimal digits for a byte |
| Colors.RgbToHex | main.py:474-475 | `rgb_to_hex` starts with `#` and is at least seven characters long; for byte components it is a `#RRGGBB` colour |
| Colors.HexByteDigits | main.py:475 | `f"{n:02X}"` of a byte is its two upper-case hexadecimal digits |
| Colors.ParseHexByte | main.py:472-475 | parsing the two digits written for a byte gives the byte back |
| Colors.RgbRoundTrip | main.py:470-475 | `hex_to_rgb(rgb_to_hex(r, g, b)) == (r, g, b)` for components in 0..255 |
| Colors.HexPairRoundTrip | main.py:470-475 | a digit pair parses to a byte that is written back as the pair in upper case |
| Colors.HexFieldsRoundTrip | main.py:470-475 | `#` followed by three digit pairs parses to bytes and is written back in upper case |
| Colors.HexColorRoundTrip | main.py:470-475 | `#RRGGBB` parses to components in 0..255, and `rgb_to_hex` writes back the same colour in upper case |
| Colors.TruncateToInt | main.py:486-488 | `int(x)` on a float truncates towards zero |
| Colors.GradientStep | main.py:485-488 | for every bar, `start + (end - start) * t` lies between the start and end values |
| Colors.GradientChannel | main.py:486-488 | for every bar, the truncated channel lies between the start and end values |
| Colors.GradientColor | main.py:485-489 | between byte-range endpoint colours, every bar's colour is a `#RRGGBB` colour |
| Colors.BarFills | main.py:467-500 | the fills exist exactly when there is at least one bar (zero bars divide by zero at main.py:467) and both gradient colours parse (they are parsed even with the gradient off); there is one fill per bar; with the gradient off every bar gets `bar_color` |
| Colors.ChannelEndpoints | main.py:485-488 | the channel of bar 0 is the start value and that of bar n-1 the end value |
| Colors.GradientEndpoints | main.py:485-489 | bar 0 has exactly the start colour and bar n-1 exactly the end colour |
| Colors.GradientFillsAreColors | main.py:467-491 | with the gradient on and byte-range endpoint colours, the fills exist exactly when there is a bar, and every bar is filled with a `#RRGGBB` colour |
| Colors.NegativeComponentParses | main.py:470-472 | `hex_to_rgb("#-5-5-5")` is `(-5, -5, -5)`: a signed field gives a negative component |
| Colors.NegativeComponentWritten | main.py:474-475 | `rgb_to_hex(-5, -5, -5)` is `"#-5-5-5"`, which is not a `#RRGGBB` colour |
| Colors.BarFillsEndpoints | main.py:477-491 | with the gradient on and `#RRGGBB` endpoints, the first and last bars are painted with the configured colours in upper case |
| Visualizer.IsAdMedia | main.py:384 | with no keywords nothing is an advertisement, and an advertisement has a non-empty title, artist or description |
| Visualizer.TitleLabel | main.py:418 | the title label starts with the title, and is longer than it exactly when the artist is a non-empty string |
| Visualizer.FrameQueue.constructor | main.py:556 | a new queue is empty |
| Visualizer.FrameQueue.Put | main.py:123-126 | `put` appends the frame at the back |
| Visualizer.FrameQueue.Empty | main.py:513 | `empty()` is true exactly when no frame is queued |
| Visualizer.FrameQueue.Get | main.py:514 | `get` removes and returns the front frame |
| Visualizer.Visualizer.constructor | main.py:189-270 | initial state: zero target of `bar_count` bars, no current media, no advertisement, no indicator, default label texts, no mute calls |
| Visualizer.Visualizer.UpdateUi | main.py:376-419 | after a tick: `is_ad_playing` is the classification of the current media's title, artist or description; the indicator is present exactly while it is true; one call is appended on an edge and none otherwise; the call log alternates starting with mute; the current title and artist and the labels show the latest media; queue and target are unchanged |
| Visualizer.Visualizer.HandleAdSignal | main.py:384-408 | the mute/unmute and indicator block keeps the invariant: indicator present iff advertisement, log equal to the edges of all classifications so far |
| Visualizer.Visualizer.TrackMedia | main.py:410-419 | the current title and artist become the latest ones; the title label is `title — artist` when the artist is non-empty and otherwise the title; the description label is `desc or ""` |
| Visualizer.Visualizer.UpdateVisuals | main.py:512-516 | the drain loop leaves the queue empty; `target` is the last queued frame, or is unchanged when the queue was empty |

## Left out

- The Tkinter window, canvas, fonts, key bindings, `after` scheduling, resize handling and `draw_bars` geometry are UI.
- The smoothing step of `update_visuals` is floating-point numerics, like `draw_bars`.
- The clock label of `update_ui` depends on the wall clock.
- The `AudioCapture` thread (COM initialisation, pycaw meter reads, `np.random` spectra, `sleep`) is concurrency plus foreign calls with random output. Only its `q.put` is modelled.
- The per-session loop of `mute_all_audio` calls pycaw. Each call is recorded in `muteCalls` instead.
- `EnumWindows`, `GetWindowText` and the pid lookup are OS calls. Their results are the `windows` input.
- Configuration file creation, loading and the F8 reload work over file I/O and mutable globals. Keywords, pid filter, bar count and colours are parameters.
- The startup pid dialog and its `int()` parsing are UI.
- `apply_gradient` and the premade-gradient menu are UI.
- Colors.GradientChannel: bars between the first and the last use exact rational arithmetic, not IEEE doubles. Exact equalities are stated only at the endpoints, where `t` is exactly 0 or 1. In between, the contract states only that each channel lies between the endpoint values.
- PyStr.LowerChar: characters outside ASCII and Latin-1 are left unchanged, although Python lower-cases other scripts too.
- Colors.BarFills: a fill is the string handed to `create_rectangle`. Tk rejects a malformed one, such as the `"#-5-5-5"` that a gradient endpoint with a signed field produces (main.py:490), but the model reports it as a fill. `n` is a `nat`. At startup a negative `bar_count` raises in `np.zeros` at main.py:193, before `_init_bars` runs. The F8 reload, itself left out, takes the new count at main.py:298. There the `np.zeros` error at main.py:319 is caught (main.py:321-322), and `_init_bars` still runs (main.py:326). With a negative count it divides by a non-zero value at main.py:467, still parses both colours, and creates no bars, because `range` of a negative count is empty. So it raises only when a gradient colour fails to parse. The model does not represent negative counts.
- Colors.ParseHexSlice: Unicode decimal digits other than ASCII, which Python's `int` also accepts, are not recognised.
- PyStr.Split: Python raises for an empty separator. That case is excluded by a precondition, because `main.py` only splits at `" - "`.
- Visualizer.FrameQueue.Get: requires a non-empty queue. Python's `get()` would block instead, and `update_visuals` only calls it after `empty()` returned false.
- Visualizer.Visualizer.constructor: does not make the first `update_ui` and `update_visuals` calls. It also leaves out the `gradient_premaide` option menu.
- Visualizer.Visualizer.UpdateVisuals: drains the queue with no concurrent producer. In the program the `AudioCapture` thread may `put` while the loop runs, so the queue can end non-empty and `target` can be a frame queued during the drain.
- Visualizer.Visualizer.UpdateUi: `canvas.delete` on the indicator swallows every exception. The model always deletes it.
- In `get_media_info`, the `len(parts) >= 2` test after a successful `" - " in title` always holds. `ParseTitle` keeps its fallback branch, but `ParseTitle`'s contract shows the branch is never taken.
