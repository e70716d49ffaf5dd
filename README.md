# Forum preview bot: a Dafny model of its core

This project models the core of a chat bot that spots links to threads and posts
on two forums (resetera and neogaf), pulls the linked post out of the fetched
page, turns its HTML into a compact text preview, and posts that preview as a
message the requester can resize or close with reactions.

| module | file | models |
|---|---|---|
| `Wrappers` | `wrappers.dfy` | `Option` and `Result` |
| `Strings` | `strings.dfy` | the Python string operations the core relies on: `in`, `split(sep)[0]`, `split(sep, 1)[1]`, `split('\n', 1)[0]`, and the search for `/\d+/` |
| `Links` | `forum_link.dfy` | `forum_link.py`: the base-link check, the ordered pattern table, the loop that sets site, kind and url, and the post id |
| `Previews` | `forum_preview.dfy` | `forum_preview.py`: breaking the post text into display lines, the size tiers, the shown text with its fence repair and "Continued" marker, resizing |
| `Reactions` | `ui.dfy` | `UI.py`: the emoji layout, the permission check, the poll loop and the three handlers |
| `Parsers` | `forum_parser.dfy` | `forum_parser.py`: post selection, the avatar link, and the passes over the post (tweets, images and smilies, videos, quotes, links, text normalisation) |

The objects whose fields the source updates in place are classes:
`Links.ForumLink`, `Previews.ForumPreview`, `Reactions.UI` and
`Parsers.ForumParser`. Each method is proved against a specification function.
The properties are proved as lemmas about those functions. Some examples:

- The classifier's result is decided by the first matching post pattern, or
  else by the last matching thread pattern.
- The display lines join back to the text.
- The shown text always has balanced code fences.
- The poll loop stops at the first permitted close reaction and leaves the size
  set by the last permitted resize before it.
- The k-th `bb` image, video or smilie is matched with the k-th recorded image
  or video.
- The normalised post text has no blank lines and no leading newline, and it
  keeps every other character in order.

Regular-expression search for the six link patterns is an oracle passed in as a
function, `search(k, text)`, returning the leftmost match of pattern `k`. The
HTML page is flattened. A fetched page is a sequence of candidate posts. The
message content of the selected post is its sequence of nodes in document order.
Each node is one of the kinds the passes look for, or plain text.

The permission check follows the code in `UI.py:24-26`: a reaction counts when
it comes from the requester, or from a channel administrator who is not a bot,
and it is on the bot's own message. The requester is accepted even when their
account is a bot. Each UI controls a single preview.

## Model

| member | source | states |
|---|---|---|
| `Strings.IndexOf` | forum_link.py:59 | `pat in s` holds iff an index is found, and that index is the first occurrence |
| `Strings.Before` | forum_parser.py:123 | `split(sep)[0]` is a prefix of `s` that ends at the first `sep`, or is all of `s` when `sep` does not occur |
| `Strings.BeforeIs` | forum_parser.py:123 | any prefix that ends at the first occurrence of `sep` (or is all of a string without `sep`) is `split(sep)[0]` |
| `Strings.After` | forum_link.py:60 | `split(sep, 1)[1]` exists iff `sep` occurs, and `s` is `split(sep)[0] + sep + split(sep, 1)[1]` |
| `Strings.LineEnd` | forum_preview.py:56 | the index of the first newline, or the length; no newline occurs before it |
| `Strings.SegmentFrom` | forum_link.py:62-63 | the leftmost `/\d+/` match at or after a position, with the digit run maximal; none when no match exists |
| `Strings.FirstSegmentDigits` | forum_link.py:62-65 | the digits of the first `/<digits>/` segment; present iff such a segment exists, non-empty and all digits |
| `Strings.FirstSegmentIs` | forum_link.py:62-65 | the first segment of the text determines the digits found |
| `Links.PostIdOf` | forum_link.py:57-66 | the post id starts with `post-`. With `#post-` in the text it is `post-` plus everything after the first `#post-`. Otherwise it is `post-` plus the digits of the first `/<digits>/`, and it is absent (AttributeError) when there is none |
| `Links.Classify` | forum_link.py:24-30 | without a base link the four fields stay unset |
| `Links.NoEmbedsNoFields` | forum_link.py:45-53 | a message without embeds leaves every field unset, whatever matches |
| `Links.FirstPostMatchWins` | forum_link.py:42-51 | with embeds, the first matching post pattern sets site, kind, url (its match) and the post id, overriding earlier thread matches |
| `Links.LastThreadMatchWins` | forum_link.py:42-51 | with no post pattern matching, the last matching pattern (a thread pattern) sets site, kind and url, and no post id is set |
| `Links.NoMatchNoFields` | forum_link.py:42-54 | with no pattern matching, the fields stay unset |
| `Links.ClassifyConsistent` | forum_link.py:39-66 | on success the url is exactly a substring some pattern matched, site and kind come from that pattern's entry, and a post id exists only for posts and starts with `post-` |
| `Links.BarePostLinkHasNoFragment` | forum_link.py:59 | a link `https://www.resetera.com/posts/<digits>/` contains no `#post-` |
| `Links.BarePostLinkSegment` | forum_link.py:62-65 | in such a link the first `/<digits>/` segment is the post number |
| `Links.BarePostLinkId` | forum_link.py:57-66 | such a link's post id is `post-` followed by its digits |
| `Links.BarePostLink` | forum_link.py:10-23 | the documented example: with embeds and only `posts/\d+` matching, the link is an era post, the url is the matched text, and the id is `post-<digits>` |
| `Links.ForumLink.constructor` | forum_link.py:5-30 | the fields are those of `Classify`; the exception flag is set exactly where the source raises |
| `Links.ForumLink.CheckBase` | forum_link.py:32-37 | the loop answers true iff a base link occurs in the message |
| `Links.ForumLink.ParseLink` | forum_link.py:39-55 | the loop leaves the fields of `Scan` from the first pattern; `suppressed` iff there are no embeds and some pattern matches |
| `Links.ForumLink.GetPostId` | forum_link.py:57-66 | the post id is `PostIdOf` of the message; it raises iff that is absent |
| `Previews.Step` | forum_preview.py:56-61 | one line has 1 to `line_length` characters, and what is left is shorter than the input |
| `Previews.StepKeepsText` | forum_preview.py:56-61 | the line followed by the text of what is left is the text of the input: one iteration loses nothing |
| `Previews.LinesBounded` | forum_preview.py:53-62 | every display line is non-empty and at most `line_length` long |
| `Previews.LinesJoin` | forum_preview.py:53-62 | the display lines joined give back the content, plus a final newline when it had none |
| `Previews.WindowSize` | forum_preview.py:64-72 | the line count is at most the tier's count and at most the lines available, and equals one of them |
| `Previews.FencesNoBacktick` | forum_preview.py:38 | text without backticks counts no fence |
| `Previews.FencesAppendPlain` | forum_preview.py:38 | appending text without backticks leaves the fence count unchanged |
| `Previews.FencesAppendFence` | forum_preview.py:38-39 | appending a fence adds exactly one to the count, whatever the text ends with |
| `Previews.Finalize` | forum_preview.py:35-39 | the text is cut to `max_chars`; a fence is added iff the cut leaves an odd count, so the fences balance |
| `Previews.EmbedText` | forum_preview.py:34-41 | the shown text is the finalized join of the first `no_lines()` lines, followed by the "Continued" marker iff lines were left out; fences balance and the length is bounded |
| `Previews.EmbedTextNoLines` | forum_preview.py:13-20 | with no lines the shown text is empty |
| `Previews.ForumPreview.constructor` | forum_preview.py:8-20 | with a post, the lines are those of its content and the embed is built; without one, nothing is; the shown text agrees with the lines and size |
| `Previews.ForumPreview.GetLines` | forum_preview.py:53-62 | the loop appends exactly the display lines of the content |
| `Previews.ForumPreview.SelectLines` | forum_preview.py:74-78 | the loop sets the shown text to the first `no_lines()` lines joined |
| `Previews.ForumPreview.BuildEmbed` | forum_preview.py:32-51 | the shown text is `EmbedText` of lines and size; the colour is resetera's for era posts; the image is the first recorded image |
| `Previews.ForumPreview.UpdateSize` | forum_preview.py:80-84 | the size becomes the new tier and the shown text is rebuilt for it; the same tier changes nothing |
| `Reactions.Lookup` | UI.py:39 | a handler is found iff the emoji is a key, and it is the one bound to that emoji |
| `Reactions.Put` | UI.py:20 | dict assignment binds the emoji to the action and leaves other emoji bound as before |
| `Reactions.PutEmojis` | UI.py:20 | dict assignment keeps the key order: an existing key keeps its place, a new key goes last |
| `Reactions.Layout` | UI.py:14-20 | building the elements succeeds iff every name is a standard element |
| `Reactions.LayoutFailure` | UI.py:18-19 | the KeyError names the first name that is not a standard element |
| `Reactions.LayoutDistinct` | UI.py:17-20 | every emoji of the layout occurs once |
| `Reactions.LayoutEmojis` | UI.py:17-20 | the layout's emoji are exactly those of the listed names |
| `Reactions.LayoutBindings` | UI.py:17-20 | each listed name's emoji triggers that name's action |
| `Reactions.StandardDefaults` | UI.py:10 | `max`, `min` and `close` map to plus/maximize, minus/minimize and cross/close |
| `Reactions.StandardInjective` | UI.py:10 | distinct standard elements have distinct emoji |
| `Reactions.DefaultLayout` | UI.py:8-12 | the default layout is plus, minus, cross, bound to maximize, minimize, close, in that order |
| `Reactions.PermissionCases` | UI.py:22-26 | reactions on other messages are refused; the requester is accepted; an administrator is accepted unless a bot; everyone else is refused |
| `Reactions.PollWithoutResize` | UI.py:33-45 | the loop stops at the first permitted close reaction, or runs out of events; with no permitted resize before that point the size is unchanged, so refused or unknown reactions change nothing |
| `Reactions.PollLastResize` | UI.py:33-45 | the loop stops at the first permitted close reaction, or runs out of events, and the size is the one set by the last permitted resize before that point |
| `Reactions.UI.constructor` | UI.py:8-12 | the elements are the layout of the names |
| `Reactions.UI.SetElements` | UI.py:14-20 | the loop succeeds iff every name is standard, and the elements are then the layout. On a KeyError, the elements built before the first unknown name remain |
| `Reactions.UI.Build` | UI.py:28-31 | one reaction per element, in element order |
| `Reactions.UI.Close` | UI.py:48-51 | the preview message is deleted and the loop is told to stop |
| `Reactions.UI.Minimize` | UI.py:53-57 | the preview is resized to the standard tier and the loop goes on |
| `Reactions.UI.Maximize` | UI.py:59-63 | the preview is resized to the maximal tier and the loop goes on |
| `Reactions.UI.Poll` | UI.py:33-45 | the loop's stop index and the preview's size are those of `Run`; the preview stays consistent and is deleted iff the loop stopped |
| `Parsers.FirstKey` | forum_parser.py:53-63 | the first post with the given id, none if no post has it |
| `Parsers.FirstOp` | forum_parser.py:57-60 | the first post carrying the OP marker, none if no post carries it |
| `Parsers.SelectFirst` | forum_parser.py:51-67 | the first post matching the link (by id for posts, by OP marker for threads) is selected, on either site |
| `Parsers.SelectNone` | forum_parser.py:51-67 | without a matching post, a neogaf thread raises and every other link selects nothing |
| `Parsers.TweetId` | forum_parser.py:151 | `src.split('.html#')[1]` exists iff `.html#` occurs. It is the text after the first separator, up to the next separator or the end, and contains no separator |
| `Parsers.BbSources` | forum_parser.py:135-136 | one recorded image per `bb` image |
| `Parsers.BbSourcesInOrder` | forum_parser.py:135-136 | the k-th `bb` image's `src` is the k-th recorded image |
| `Parsers.EraImagesAt` | forum_parser.py:135-138 | on resetera each `bb` image is replaced in place by its `src`, and every other node stays |
| `Parsers.WithoutBb` | forum_parser.py:137-140 | removing the `bb` images leaves none, and shortens the post by their number |
| `Parsers.WithoutBbInOrder` | forum_parser.py:137-140 | every other node keeps its relative order |
| `Parsers.FilledAt` | forum_parser.py:141-146 | the k-th smilie becomes the k-th recorded image plus a newline; every other node is unchanged |
| `Parsers.Players` | forum_parser.py:161-163 | one recorded video per video wrapper |
| `Parsers.PlayersInOrder` | forum_parser.py:161-163 | the k-th video wrapper's player URL is the k-th recorded video |
| `Parsers.EmbeddedAt` | forum_parser.py:161-164 | each video wrapper is replaced in place by its player URL, and every other node stays |
| `Parsers.AttributionNamed` | forum_parser.py:120-131 | the name is the text before the first `said:` (all of it when there is none). A non-empty link gives `[name said:](base + link)`, an empty one `name said:` |
| `Parsers.Quoted` | forum_parser.py:102-118 | no attribution, quote body or expand control remains, and only the expand controls are removed |
| `Parsers.QuotedAt` | forum_parser.py:102-131 | every node but an expand control keeps its order: an attribution becomes its `[name said:](base+href)` line, a quote body becomes the body between two code fences, any other node stays |
| `Parsers.WithoutScripts` | forum_parser.py:86-87 | no script remains, and only scripts are removed |
| `Parsers.WithoutScriptsInOrder` | forum_parser.py:86-87 | every other node is kept, in order |
| `Parsers.PlainLinksKeepText` | forum_parser.py:94-100 | links without text or without `href` are left alone, so a post with only such links keeps its text |
| `Parsers.Collapse` | forum_parser.py:90 | replacing newline runs leaves no two newlines in a row, keeps the non-newline characters in order, keeps whether the text starts with a newline, and never lengthens it |
| `Parsers.CollapseLength` | forum_parser.py:90 | exactly the newlines directly followed by another newline are removed, so each run leaves one newline |
| `Parsers.CollapseAt` | forum_parser.py:90 | every other character is kept, in order, moved left by the removed newlines before it |
| `Parsers.CollapseKeepsSingleNewlines` | forum_parser.py:90 | text without a blank line is unchanged |
| `Parsers.CollapseIdempotent` | forum_parser.py:90 | collapsing twice is collapsing once |
| `Parsers.Normalise` | forum_parser.py:89-92 | the post text has no blank line and no leading newline, and keeps every non-newline character in order |
| `Parsers.NormaliseLength` | forum_parser.py:89-92 | the post text is the input less its newlines followed by a newline, and less one leading newline when the input starts with one |
| `Parsers.NormaliseAtLead` | forum_parser.py:89-92 | for text starting with a newline, every character but the removed newlines and that leading newline is kept, in order |
| `Parsers.NormaliseAtPlain` | forum_parser.py:89-92 | for other text, every character but the removed newlines is kept, in order |
| `Parsers.ProcessedPost` | forum_parser.py:22-35 | a successful parse gives text without blank lines or a leading newline, one recorded image per `bb` image of the post and one recorded video per video wrapper of the post |
| `Parsers.ForumParser.constructor` | forum_parser.py:9-20 | a new parser has found nothing and recorded nothing |
| `Parsers.ForumParser.GetPost` | forum_parser.py:51-67 | the loop (era threads) or lookup selects the post of `Select`, raising exactly for a neogaf thread without OP marker |
| `Parsers.ForumParser.GetAvlink` | forum_parser.py:72-78 | with an avatar image the link is the site's base URL followed by its `src`; otherwise it is unchanged |
| `Parsers.ForumParser.TwitterEmbed` | forum_parser.py:148-152 | the loop succeeds iff every twitter iframe has an id, and then replaces each by `https://twitter.com/user/status/<id>` |
| `Parsers.ForumParser.FormatImages` | forum_parser.py:133-146 | the loop appends the `bb` sources in order; resetera replaces each such image by its `src`; neogaf removes them and then fills the smilies, raising iff there are more smilies than images |
| `Parsers.ForumParser.RecordImages` | forum_parser.py:135-140 | the loop appends the `bb` sources in order, and leaves the post with each image replaced by its `src` (resetera) or removed (neogaf) |
| `Parsers.ForumParser.FillSmilies` | forum_parser.py:141-146 | the loop with its counter raises iff there are more smilies than recorded images, and otherwise fills them as `Filled` |
| `Parsers.ForumParser.YoutubeEmbed` | forum_parser.py:154-164 | the loop succeeds iff every video wrapper has a player; it appends the player URLs in order and replaces each wrapper by its URL |
| `Parsers.ForumParser.FormatQuotes` | forum_parser.py:102-118 | the loop succeeds iff every attribution has a link, and leaves the post of `Quoted` |
| `Parsers.ForumParser.MarkDownLinks` | forum_parser.py:94-100 | the loop rewrites each link with text and `href` to `[text](href)` and leaves every other node as it is |
| `Parsers.ForumParser.GetContents` | forum_parser.py:80-92 | scripts removed, links marked down, and the content is the normalised text of what remains |
| `Parsers.ForumParser.ProcessPost` | forum_parser.py:29-35 | the passes, in the source's order, succeed iff `Process` does and leave its avatar link, images, videos and text |
| `Parsers.ForumParser.ProcessTweeted` | forum_parser.py:32-35 | the passes after the tweet pass agree with `ProcessImages` |
| `Parsers.ForumParser.ProcessPictured` | forum_parser.py:33-35 | the passes after the image pass agree with `ProcessVideos` |
| `Parsers.ForumParser.ProcessEmbedded` | forum_parser.py:34-35 | the passes after the video pass agree with `ProcessQuotes` |
| `Parsers.ForumParser.Parse` | forum_parser.py:22-35 | without a page nothing is found. A raising selection fails. Without a selected post nothing else happens. With one, the result is that of `Process` on it |

## Left out

- Regular-expression search for the six link patterns is an oracle passed in as a function, not modelled. `/\d+/` and `\n+` are modelled directly. Their `\d` is restricted to ASCII digits.
- Fetching the page (`get_page`, HTTP) is left out: `Parsers.ForumParser.Parse` receives the fetched page, or `None` for a failed fetch.
- HTML parsing and tree navigation are left out. The page is a sequence of candidate posts, and a post's message content is a flat sequence of nodes.
- Because of that flattening, nodes nested inside quotes are not transformed separately.
- Also because of it, the raising lookups of missing structural elements are not modelled: no `messageContent` or `bbWrapper` div, no `a.avatar` anchor, no neogaf `expandContent` or `expandLink` inside a quote block.
- `get_meta` and `get_name` read the page title, icon, site name and poster name into fields for the embed, and are not modelled. Their failures are left out too: `get_meta` raises TypeError when one of its `og:` meta tags is missing (forum_parser.py:47-49), before the post is selected, and `get_name` raises AttributeError when the post has no name link (forum_parser.py:70). `Parsers.ForumParser.Parse` never fails for either reason.
- The passes run over the whole selected post in the source (`self.post.findAll`, forum_parser.py:105-164), while the text is taken only from its message content (forum_parser.py:82-85). The model runs every pass over the message content only. So it does not record `bb` images or videos that sit elsewhere in the post element, such as in a neogaf signature, and in such a post its first image can differ from the source's `images[0]`.
- `get_avlink` removes the avatar image from the post. The avatar sits outside the message content, so the model keeps it apart from the post's nodes.
- `forum_preview.send` and `build_ui` post the message and attach a UI. They are platform calls, and the model starts from a posted preview.
- The chat platform is not modelled: the embed object and its title, author and footer, `send`, `add_reaction`, `edit` and `delete`. Deleting the preview message is the preview's `deleted` flag.
- The platform's reaction stream is a finite sequence of events. The 24-hour timeout of `wait_for` is the end of that sequence.
- The weak reference from the UI to its preview is a plain reference.
- `print` logging is left out.
- The wiring between components is not modelled: `forum_parser` builds its link from a string, and `forum_preview` reads `post.post` before any parse. Each class takes its inputs explicitly.
- `Parsers.ForumParser.constructor` takes the link's site, kind and post id instead of the message text.
- `Previews.ForumPreview.constructor` requires `line_length >= 2` when the post has non-empty content, because `get_lines` never terminates on non-empty content for smaller widths. Without a post, or with empty content, any width is accepted, as in the source.
- `Previews.ForumPreview.GetLines` requires `line_length >= 2` for non-empty content, for the same reason.
- Settings are natural numbers.
- `Reactions.UI.constructor` requires every name to be standard: otherwise the source raises KeyError from `__init__` and no UI exists. `Reactions.UI.SetElements` models that error path.
- `Parsers.ForumParser.Parse` requires a fresh parser, as after construction: `parse` runs once per parser.
- `Parsers.ForumParser.TwitterEmbed` does not state the post after an exception, because the parse is then abandoned.
- `Parsers.ForumParser.FillSmilies` does not state the post after an exception, because the parse is then abandoned.
- `Parsers.ForumParser.YoutubeEmbed` does not state the post after an exception, because the parse is then abandoned.
- `Parsers.ForumParser.FormatQuotes` does not state the post after an exception, because the parse is then abandoned.
- `Parsers.ForumParser.FormatQuotes` on resetera: the source runs three loops, for attributions, bodies and expand controls. The model makes one pass over the flat post, which gives the same post whenever no exception occurs.
