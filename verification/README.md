# Amblyopia popup: per-site settings model

A Dafny model of the pure logic in the browser-extension popup `popup.js`. The
popup keeps one settings record per site, `{colors_on, font_size}`. It stores
that record under the page's hostname as a bar-separated string. It changes
the record when the user clicks the size, "update page" and "save" buttons.
When colours are switched on, it injects a script that recolours each
paragraph of the page word by word.

Modules, one per concern:

- `Wrappers` (`wrappers.dfy`): `Option`, where `None` stands for `undefined` (a missing stored entry) and, in `Strings.IndexOf`, for the -1 of `indexOf`.
- `Strings` (`strings.dfy`): JavaScript `indexOf` and `split` with a one-character argument. `Join` is `Split`'s inverse.
- `Numbers` (`numbers.dfy`): the font size as a JavaScript number, either an integer or `NaN`. It also holds printing (`"" + n`) and `parseInt`.
- `Codec` (`codec.dfy`): the settings record, its defaults, `settingsToString` and `stringToSettings`.
- `Storage` (`storage.dfy`): `saveSettings` and the saved-or-default decision of `getSavedOrDefaultSettings`, over a store that maps hostnames to strings.
- `Popup` (`popup.js` handlers, `popup.dfy`): the popup session as a transition function. Each step returns the new settings and the host calls it makes, in order.
- `Recolor` (`recolor.dfy`): the segmentation algorithm that the `changeFontColor` script runs on one paragraph. It exists as a pure function (`Segment`) and as the script's two nested loops (`RecolorParagraph`), and the loops are proved to compute the function.

Decoding has no per-field fallback: only a read error or a missing entry gives
the defaults. When the second field is not a number, `parseInt` gives NaN and the record keeps NaN. Printing NaN
writes `"NaN"`, and that text decodes back to NaN. So `Decode(Encode(s)) == s`
holds for every record, NaN sizes included. Once the size is NaN, increasing
it gives NaN and decreasing it does nothing, so a NaN size stays NaN until new
settings are loaded.

## Model

| member | source | states |
|---|---|---|
| `Strings.IndexOf` | popup.js:117 | `indexOf('<')`: `None` (-1) exactly when the character is absent; otherwise the position holds it and nothing before it does |
| `Strings.Split` | popup.js:108 | `split` on one character: there is always at least one field, and no field contains the separator |
| `Strings.JoinOfSplit` | popup.js:108 | joining the fields of a split with the separator gives the input back, so splitting loses no character |
| `Strings.SplitOfJoin` | popup.js:153 | splitting a bar-join of bar-free fields gives exactly those fields, which is why the two stored fields are read back positionally |
| `Numbers.Format` | popup.js:148 | `"" + n`: NaN prints as "NaN"; an integer prints as '-' exactly when negative, followed by its decimal digits with no leading zero (0 prints as "0") |
| `Numbers.ParseInt` | popup.js:155 | a number results exactly when the text is decimal digits, optionally after one '+' or '-'; digits alone or after '+' give their decimal value, after '-' the negated value; anything else, the empty string included, is NaN |
| `Numbers.ParseIntOfFormat` | popup.js:148-155 | parsing a printed font size gives the same size back, for every integer and for NaN |
| `Numbers.FormatHasNoBar` | popup.js:148 | a printed size never contains the bar, so it cannot shift the field positions |
| `Codec.Encode` | popup.js:147-149 | the stored text splits into exactly two fields: "true" or "false" for `colors_on`, then the printed `font_size` |
| `Codec.Decode` | popup.js:151-157 | `colors_on` is set exactly when the text begins with "true" ended by the end of the text or by a bar; text with no bar has a NaN size |
| `Codec.DecodeFields` | popup.js:151-157 | for a flag field, a bar and a size field followed by nothing or by more bar-separated fields: the flag is on iff the first field is exactly "true", the size is `parseInt` of the second field, and later fields are ignored |
| `Codec.FlagNeedsExactTrue` | popup.js:154 | any first field other than exactly "true" ("", "1", "True", "false", ...) decodes with `colors_on` false |
| `Codec.DecodeEncode` | popup.js:147-157 | round trip: decoding the encoding of any record gives that record back |
| `Storage.SavedOrDefault` | popup.js:160-168 | a host error or a missing key gives `{font_size: 20, colors_on: false}`; otherwise the stored text is decoded without any further fallback |
| `Storage.SaveSettings` | popup.js:171-175 | saving sets the hostname's entry to exactly the encoded settings, keeps every other entry, and a later error-free load for that hostname returns exactly the saved settings |
| `Storage.SaveIsolatesHosts` | popup.js:171-175 | saving for one hostname does not change what another hostname loads |
| `Popup.Increase` | popup.js:93-96 | the size grows by exactly 4 (NaN stays NaN), `colors_on` is unchanged, and the popup is redrawn at the new size |
| `Popup.Decrease` | popup.js:98-103 | from 8 upward the size shrinks by exactly 4 and the popup is redrawn; below 8, or at NaN, nothing changes and nothing is redrawn |
| `Popup.UpdatePage` | popup.js:220-226 | `colors_on` becomes true and the size is kept; the page gets the size, background `#191919` and palette #7D0000 and #00007D, in that order |
| `Popup.Load` | popup.js:199-208 | both saved fields are copied verbatim; the page and the popup get the saved size; the background turns #191919 and the text is recoloured exactly when the saved flag is on, in that order, and nothing else is issued |
| `Popup.Save` | popup.js:228-231 | saving emits the encoded settings and changes nothing in the record |
| `Popup.SaveThenLoad` | popup.js:228-231 | the text a save persists, decoded and handed to the load callback, restores exactly the saved settings |
| `Popup.Step` | popup.js:199-231 | only a load replaces the record; otherwise `colors_on` only turns on, and only through "update page"; only the size buttons and a load change the size; a recolouring step leaves `colors_on` true |
| `Popup.Run` | popup.js:204-224 | in any session, every background change uses `#191919` and every recolouring uses the palette #7D0000 and #00007D |
| `Popup.RunKeepsSizeGrid` | popup.js:93-103 | if the size starts as a multiple of 4 that is at least 4, clicks and loads of such settings keep it that way |
| `Popup.ClicksFromDefaults` | popup.js:187-218 | from the initial 20, any sequence of clicks keeps the size at least 4 and a multiple of 4 |
| `Popup.DecreaseUndoesIncrease` | popup.js:93-103 | a decrease right after an increase restores the settings, from any size of at least 4 or NaN |
| `Popup.IncreaseUndoesDecrease` | popup.js:93-103 | an increase right after an effective decrease restores the settings |
| `Popup.TextPaletteColours` | popup.js:224 | the palette text names exactly two word colours, `#7D0000` and `#00007D` |
| `Popup.SessionWordColours` | popup.js:105-130 | every word span from a recolouring in a session gets `#7D0000` or `#00007D` |
| `Recolor.Pick` | popup.js:130 | the chosen word colour is an element of the palette |
| `Recolor.Content` | popup.js:117-123 | a piece's text part has no '<'; it is a prefix of the piece; it is the whole piece iff the piece has no '<', and otherwise the '<' follows it |
| `Recolor.WordSpans` | popup.js:125-133 | one span per word, in order; span w holds word w plus one space, coloured with the palette entry chosen for word w of this piece |
| `Recolor.ColourWords` | popup.js:125-133 | the inner word loop builds exactly the word spans |
| `Recolor.RecolorPiece` | popup.js:116-139 | one pass of the piece loop gives the word spans of the text before the first '<' (each word plus one space, coloured by the choice for that word), followed, when the piece has a '<', by one markup span holding the piece from that '<' on, closed by '>' |
| `Recolor.PieceSpans` | popup.js:116-139 | every word span of a piece is coloured from the palette |
| `Recolor.PieceShape` | popup.js:116-139 | a piece with no '<' gives only word spans, one per space-separated field when non-empty, each with text word + ' '; a piece with '<' gives exactly the spans of its text part, then one last span holding the piece from its first '<' on, followed by '>' |
| `Recolor.PieceByContent` | popup.js:116-139 | a piece's spans are the word spans of its longest '<'-free prefix, then its tag part closed by '>' when it has one |
| `Recolor.PieceMarkupCount` | popup.js:135-139 | a piece gives exactly one markup span if it contains '<', and none otherwise |
| `Recolor.PieceText` | popup.js:116-139 | for one '>'-piece, the spans spell its text part, plus one space when it is non-empty, then, if it has a '<', its tag part closed by '>'; a piece with no '<' gets no '>' back, as in the script, so a '>' that ends a tag-free piece is dropped |
| `Recolor.PiecesSpans` | popup.js:115-140 | the piece loop makes one group of spans per '>'-piece, in order, and group k is piece k's spans with k as the piece number the colour choice sees |
| `Recolor.FlattenColoured` | popup.js:115-140 | appending the groups of spans of all pieces, each coloured from the palette, keeps every word coloured from the palette |
| `Recolor.FlattenMarkup` | popup.js:115-140 | appending the groups gives one markup span per piece that contains '<' |
| `Recolor.SegmentColoursAndMarkup` | popup.js:108-140 | for a whole paragraph, every word colour is an element of the bar-separated palette, and the markup spans number the '>'-pieces that contain '<' |
| `Recolor.Segment` | popup.js:108-140 | the segmentation of one paragraph as a function of its markup, the palette text and the colour choice; its properties are stated by `SegmentColoursAndMarkup`, `PlainParagraph` and `RecolorParagraph` |
| `Recolor.RecolorParagraph` | popup.js:108-140 | the script's nested loops over pieces and words compute exactly `Segment` |
| `Recolor.PlainParagraph` | popup.js:111-133 | a paragraph without tags becomes one coloured span per space-separated word, each with text word + ' ' |

## Left out

- Host calls are not modelled as calls: `chrome.tabs.query`, `chrome.tabs.executeScript`, and `chrome.storage.sync.get` and `set` (popup.js:19, 68, 81, 142, 161, 174). The store is a map. The read error is a boolean parameter. Script injections are `Popup.Effect` values.
- DOM work is left out: element lookups, style assignments, `createElement`, `appendChild` and `removeChild`. `setFontSizeInExt` appears only as the `SetPopupFontSize` effect. The `textShadow = 'none'` on word spans has no counterpart.
- Hostname extraction through an anchor element (popup.js:193-195) is left out; the browser parses the URL.
- `Math.random` (popup.js:130) is a chooser parameter `(piece, word) -> nat`. It is reduced modulo the palette length, so every in-range index is possible.
- The script text built by string concatenation in `changeBackgroundColor`, `setFontSize` and `changeFontColor` is not modelled. Only the algorithm the recolouring script runs is modelled.
- `changeFontColor` loops over every `<p>` element. The model covers one paragraph's `innerHTML`. The browser re-parsing span text as markup is outside the model.
- The asynchronous order of the load callback and button clicks is modelled by letting `Popup.Run` take events in any order. Nothing else about concurrency is modelled.
- `console.log`, `console.assert` and event-listener registration are left out.
- Write failures are not modelled: `chrome.storage.sync.set` (popup.js:174) is called without a callback and its `lastError` is never read, so a write the host refuses (for example over the sync quota) keeps the old entry. `Storage.SaveSettings` models a write that lands.
- Numbers.ParseInt: covers only an optional '+' or '-' followed by decimal digits that make up the whole string. Everything else gives NaN. JavaScript `parseInt` instead skips leading whitespace, reads a leading digit run before trailing junk (`"20px"` is 20), and reads `0x` prefixes as hexadecimal. The model gives NaN for all of these. Text written by `settingsToString` never has these forms.
- Numbers.Format: integers are unbounded. JavaScript numbers are doubles: they lose integer precision above 2^53 and print in exponent form from 1e21. The model does not capture this.
- Popup.Increase: repeated increases are unbounded integers. Double-precision rounding of very large sizes is not modelled.
