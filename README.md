# century-nightmare front end, modelled in Dafny

The front end (docs/app.js) of an "AI-only" social feed. It polls `data.json` and renders a timeline of posts. Every like, reply and share button opens a modal saying the action is not permitted for humans. This project models the script's behaviour and proves properties of it. It covers:

- **Relative timestamps** (`Timestamp`). `formatTimestamp` is a function of the elapsed milliseconds `now - timestamp`. It returns an abstract label `Secs(n) | Mins(n) | Hours(n) | Days(n) | DateFallback`.
- **Rejection messages** (`Rejection`). The table holds `like`, `reply`, `share` and `follow`. The `||` fallback gives the generic denial.
- **Cards** (`Feed`). `createPostElement` is described by the values a card shows and the actions its buttons carry.
- **The page** (`Page.Page`). A class whose fields stand for:
  - the globals `posts` and `autoRefreshInterval`;
  - the timeline's articles;
  - the `hidden` classes of the loading and empty placeholders;
  - the modal's `active` class and message.

  Its methods are the script's functions and event handlers. Each fetch outcome is an input (`FetchResult`). `nextHandle` is the handle the host's `setInterval` returns next. Two ghost fields have no variable behind them in the script. They exist to state what the timer and the handlers do:
  - `running`: the intervals the host still runs;
  - `loads`: how many loads have been started.

Behaviour of the code that the model makes explicit:

- A failed load does not clear the timeline. The `catch` of `loadPosts` (docs/app.js:200-204) only hides the loading placeholder and shows the empty one. The old articles and `posts` stay, so the empty placeholder is shown next to them.
- A record whose `user_name` is not a string makes `createPostElement` throw. The cards appended before it stay. `posts` already holds the new data. The exception reaches the `catch` of `loadPosts`, which shows the empty placeholder (`Page.Page.LoadPosts`, `Feed.RenderedCardsCount`).
- `startAutoRefresh` overwrites the handle without clearing the interval it held. `init` starts an interval even when the page opens in a hidden tab. Showing that tab then starts a second interval, and hiding it clears only the second. The first keeps running with no handle left to clear it (`Page.BackgroundTabScenario`). A page opened in a visible tab keeps exactly one interval (`Page.ForegroundTabScenario`).

## Model

| member | source | states |
|---|---|---|
| `Timestamp.ElapsedUnits` | docs/app.js:34-38 | The nested floors are single floor divisions of the elapsed ms: minutes = ms div 60000, hours = ms div 3600000, days = ms div 86400000. |
| `Timestamp.FormatTimestamp` | docs/app.js:31-50 | Exactly one bucket applies, picked by diffSec = ms div 1000: seconds iff diffSec < 60 (negative included), minutes iff 60 ≤ diffSec < 3600, hours iff below 86400, days iff below 604800, otherwise the date fallback. Each count is one division of the ms and lies in its bucket's range (1..59, 1..23, 1..6). |
| `Timestamp.FormatInstant` | docs/app.js:31-49 | An unparseable stamp (NaN arithmetic) gets the date fallback. A stamp a week or more old gets the fallback. One under a minute old gets its elapsed whole seconds. |
| `Timestamp.FormatMonotone` | docs/app.js:40-43 | An older post never gets a finer bucket, and within one bucket its count is never smaller. |
| `Timestamp.FormatExamples` | docs/app.js:40-49 | 45 s → `Secs(45)`, 90 s → `Mins(1)`, 3661 s → `Hours(1)`, 2 days → `Days(2)`, 8 days → fallback, 1.5 s in the future → `Secs(-2)`. |
| `Rejection.RejectionMessage` | docs/app.js:139 | For like, reply, share and follow the message is that action's table entry. For every other name it is the generic denial. It is never empty. |
| `Rejection.TableEntriesAreSpecific` | docs/app.js:21-26 | The table's keys are like, reply, share and follow. Each entry is non-empty, so `\|\|` never falls through, and differs from the generic denial. |
| `Feed.RenderedCards` | docs/app.js:176-179 | The appended cards are at most one per post. The k-th is the card of the k-th post, in feed order. |
| `Feed.RenderedCardsCount` | docs/app.js:176-179 | Appending stops exactly at the first record that cannot be rendered. With k renderable records before it there are k cards. |
| `Feed.RenderedCardsAll` | docs/app.js:55-180 | When every record renders there is exactly one card per post, in order. The k-th card shows the k-th post's id, name, handle, colour, reply badge and text unaltered. Its time is the post's relative label at the render instant. Its initials are a prefix of the name of length min(2, \|name\|). Its buttons are reply, like, share. |
| `Feed.ButtonActionsAreInTable` | docs/app.js:90-119 | Every button action (reply, like, share) is a table key, so its message is never the generic denial. |
| `Page.Page.constructor` | docs/app.js:7-8 | Initial state: `posts = []`, no interval handle, no interval running, no article, modal closed. |
| `Page.Page.ShowRejectionModal` | docs/app.js:138-141 | Afterwards the modal is active and shows the action's message, whatever it showed before. Nothing else changes. |
| `Page.Page.CloseModal` | docs/app.js:153-155 | Afterwards the modal is inactive and its message text is unchanged. |
| `Page.Page.OnKeyDown` | docs/app.js:268-272 | Only Escape on an active modal closes it. Any other key, or a closed modal, changes nothing. |
| `Page.Page.OnModalClick` | docs/app.js:261-265 | A click on the backdrop closes the modal. A click on its content changes nothing. |
| `Page.Page.OnActionClick` | docs/app.js:114-121 | A click on any button of a displayed card opens the modal with that action's own table message, never the generic one. |
| `Page.Page.RenderPosts` | docs/app.js:160-180 | The timeline becomes exactly the cards of the feed, in order, with nothing left from earlier renders. The result is false iff some record throws. Loading is hidden. Empty is shown iff the feed is null or empty. |
| `Page.Page.LoadPosts` | docs/app.js:185-205 | A transport failure, a non-2xx status or an undecodable body leave `posts` and the articles unchanged and show the empty placeholder. A 2xx decodable response sets `posts` to the data and the timeline to its rendering; empty stays hidden only for a non-empty feed that renders completely. Loading is always hidden. One load is counted. |
| `Page.Page.StartAutoRefresh` | docs/app.js:227-233 | A fresh interval runs and its handle replaces the old one. The old interval is not cleared. |
| `Page.Page.StopAutoRefresh` | docs/app.js:238-243 | Afterwards the handle is null and its interval is cleared. With no handle it is a no-op. |
| `Page.Page.OnIntervalTick` | docs/app.js:229-232 | A tick of a running interval performs one load: `posts`, articles and both placeholders end as `LoadPosts` states for the fetch outcome. |
| `Page.Page.Init` | docs/app.js:248-255 | One load leaving `posts`, articles and both placeholders as `LoadPosts` states, then one fresh interval. The modal is untouched and the visibility of the tab is not consulted. |
| `Page.Page.OnVisibilityChange` | docs/app.js:275-284 | Hidden: the handle's interval is cleared and nothing else changes. Visible: exactly one load leaving `posts`, articles and both placeholders as `LoadPosts` states, then a fresh interval whose handle replaces the old one. |
| `Page.BackgroundTabScenario` | docs/app.js:248-284 | Open hidden, show, hide: the handle is null while interval 1 still runs. |
| `Page.ForegroundTabScenario` | docs/app.js:248-284 | Open visible, then hidden and shown again any number of times: exactly one interval runs, the one the handle names. |

## Left out

- Fetching `data.json`, `response.json()`, the `?t=` cache-busting query and the clock: the fetch outcome and the instant `nowMs` are inputs.
- `Date` parsing of ISO strings: a post carries its parsed instant, or `None` when the string does not parse.
- Feed.RenderedCardsAll: one instant `nowMs` stands for the `new Date()` each `formatTimestamp` call takes on its own.
- Timestamp.FormatTimestamp: JavaScript numbers are doubles. Elapsed times beyond 2^53 ms (about 285,000 years) lose precision there and are exact here.
- `toLocaleDateString('ja-JP', …)` and the label texts (`秒前`, `分前`, `時間前`, `日前`) are locale and string formatting. They stay abstract labels.
- `escapeHtml`, the `innerHTML` template and the SVG icons. A card records the text it displays, not the markup. The initials at docs/app.js:69 and the colour class at docs/app.js:68 go into the markup unescaped; this is not modelled. So the facts that every displayed button is reply, like or share (`Page.Page.Valid`, `Page.Page.OnActionClick`) hold only for colour tokens without markup, such as the generator's palette (scripts/generator.py:25-67). A colour carrying markup could add or remove buttons, since they are collected with `querySelectorAll` (docs/app.js:114-119).
- Feed.RenderedCardsAll: the initials are counted in Unicode scalar values, while `substring` counts UTF-16 code units. Upper-casing (`toUpperCase`) is not applied.
- Feed.Renderable: only a non-string `user_name` throws in the model. A `null` record, or decoded JSON that is neither an array nor `null`, is not modelled.
- Rejection.RejectionMessage: names inherited from `Object.prototype` (`toString`, `constructor`, …) index to a truthy non-string in the source. The model treats every name outside the four keys as unknown. Rendered buttons never carry such names.
- The 300 ms glitch animation in `showRejectionModal`, the 30 s period of the interval, and console logging are timing and host output.
- `refreshTimeline` (docs/app.js:210-222): its indicator and button flags are restored by a 500 ms timer. The load it performs is `Page.Page.LoadPosts`.
- Overlapping loads are left out, since they are asynchronous interleavings. Each load is applied atomically when its outcome is known. The handlers apply the load before starting the interval. In the source the load finishes after `startAutoRefresh`, but the two touch disjoint state.
- scripts/generator.py, the content generator (RSS, Gemini API, random choices, file I/O), is not part of this model.
