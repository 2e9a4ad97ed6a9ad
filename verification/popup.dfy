/**
 The popup session: the in-memory settings record and how each user action or
 the load callback changes it. A step returns the new settings together with
 the host calls it issues, in order, as `Effect`s.
 */
module Popup {
  import opened Numbers
  import opened Strings
  import opened Codec
  import opened Recolor

  /** How much one click on a size button changes the size. */
  const FontStep: int := 4

  /** The smallest size the decrease button still shrinks. */
  const ShrinkFloor: int := 8

  /** The page background set when colours are switched on. */
  const DarkBackground: string := "#191919"

  /** The two word colours, '|'-separated as the recolouring script reads them. */
  const TextPalette: string := "#7D0000|#00007D"

  datatype Event =
    | Loaded(saved: Settings)    // the saved-or-default settings reached the load callback
    | IncreaseClicked            // "incr_font_size"
    | DecreaseClicked            // "decr_font_size"
    | UpdatePageClicked          // "update_page"
    | SaveClicked                // "save_settings"

  datatype Effect =
    | SetPageFontSize(size: Number)      // setFontSize: size of every paragraph of the page
    | SetPopupFontSize(size: Number)     // setFontSizeInExt: size of the popup's two eye tests
    | SetPageBackground(color: string)   // changeBackgroundColor
    | RecolorPageText(palette: string)   // changeFontColor, which runs `Recolor.Segment`
    | Persist(text: string)              // saveSettings under the tab's hostname

  datatype Transition = Transition(settings: Settings, effects: seq<Effect>)

  /** `x += delta` on a JavaScript number: NaN absorbs the addition. */
  function Shifted(x: Number, delta: int): (r: Number)
    ensures r.NaN? <==> x.NaN?
    ensures r.Int? ==> r.value - x.value == delta
  {
    match x
    case NaN => NaN
    case Int(v) => Int(v + delta)
  }

  /** The guard `settings.font_size >= 8`, false for NaN. */
  predicate CanShrink(size: Number)
  {
    size.Int? && size.value >= ShrinkFloor
  }

  /** `increaseFontSizeInExt`: the size grows by one step, the flag is untouched. */
  function Increase(s: Settings): (t: Transition)
    ensures t.settings.colorsOn == s.colorsOn
    ensures s.fontSize.Int? ==> t.settings.fontSize == Int(s.fontSize.value + FontStep)
    ensures s.fontSize.NaN? ==> t.settings.fontSize.NaN?
    ensures t.effects == [SetPopupFontSize(t.settings.fontSize)]
  {
    var s' := s.(fontSize := Shifted(s.fontSize, FontStep));
    Transition(s', [SetPopupFontSize(s'.fontSize)])
  }

  /**
   `decreaseFontSizeInExt`: the size shrinks by one step when it is at least 8;
   otherwise nothing changes and nothing is redrawn.
   */
  function Decrease(s: Settings): (t: Transition)
    ensures t.settings.colorsOn == s.colorsOn
    ensures CanShrink(s.fontSize) ==>
      && t.settings.fontSize == Int(s.fontSize.value - FontStep)
      && t.effects == [SetPopupFontSize(t.settings.fontSize)]
    ensures !CanShrink(s.fontSize) ==> t == Transition(s, [])
  {
    if CanShrink(s.fontSize) then
      var s' := s.(fontSize := Shifted(s.fontSize, -FontStep));
      Transition(s', [SetPopupFontSize(s'.fontSize)])
    else
      Transition(s, [])
  }

  /**
   The "update page" handler: the page gets the current size, the dark
   background and the two-colour text, and the flag is switched on.
   */
  function UpdatePage(s: Settings): (t: Transition)
    ensures t.settings == Settings(true, s.fontSize)
    ensures t.effects == [SetPageFontSize(s.fontSize), SetPageBackground(DarkBackground), RecolorPageText(TextPalette)]
  {
    Transition(s.(colorsOn := true),
      [SetPageFontSize(s.fontSize), SetPageBackground(DarkBackground), RecolorPageText(TextPalette)])
  }

  /**
   The load callback: both saved fields are copied verbatim, the page and the
   popup get the saved size, and the page is recoloured when the saved flag is on.
   */
  function Load(saved: Settings): (t: Transition)
    ensures t.settings == saved
    ensures |t.effects| >= 2 && t.effects[..2] == [SetPageFontSize(saved.fontSize), SetPopupFontSize(saved.fontSize)]
    ensures saved.colorsOn <==> RecolorPageText(TextPalette) in t.effects
    ensures t.effects == [SetPageFontSize(saved.fontSize), SetPopupFontSize(saved.fontSize)]
      + (if saved.colorsOn then [SetPageBackground(DarkBackground), RecolorPageText(TextPalette)] else [])
  {
    var sizes := [SetPageFontSize(saved.fontSize), SetPopupFontSize(saved.fontSize)];
    var colours := if saved.colorsOn then [SetPageBackground(DarkBackground), RecolorPageText(TextPalette)] else [];
    assert (sizes + colours)[..2] == sizes;
    assert saved.colorsOn ==> (sizes + colours)[3] == RecolorPageText(TextPalette);
    Transition(saved, sizes + colours)
  }

  /** The "save settings" handler: the settings are stored as their text, unchanged. */
  function Save(s: Settings): (t: Transition)
    ensures t.settings == s
    ensures t.effects == [Persist(Encode(s))]
  {
    Transition(s, [Persist(Encode(s))])
  }

  /** What "save settings" persists, once loaded back, restores the popup's settings. */
  lemma SaveThenLoad(s: Settings)
    ensures Save(s).effects[0].Persist?
    ensures Load(Decode(Save(s).effects[0].text)).settings == s
  {
    DecodeEncode(s);
  }

  function Step(s: Settings, e: Event): (t: Transition)
    ensures e.Loaded? ==> t.settings == e.saved
    ensures !e.Loaded? ==> t.settings.colorsOn == (s.colorsOn || e.UpdatePageClicked?)
    ensures e.UpdatePageClicked? || e.SaveClicked? ==> t.settings.fontSize == s.fontSize
    ensures RecolorPageText(TextPalette) in t.effects ==> t.settings.colorsOn
  {
    match e
    case Loaded(saved) => Load(saved)
    case IncreaseClicked => Increase(s)
    case DecreaseClicked => Decrease(s)
    case UpdatePageClicked => UpdatePage(s)
    case SaveClicked => Save(s)
  }

  /** Every page recolouring and background change a step issues uses the popup's fixed constants. */
  predicate FixedPageColours(effects: seq<Effect>)
  {
    forall k :: 0 <= k < |effects| ==>
      && (effects[k].RecolorPageText? ==> effects[k].palette == TextPalette)
      && (effects[k].SetPageBackground? ==> effects[k].color == DarkBackground)
  }

  /** A session: the events in the order they happened, from settings `s`. */
  function Run(s: Settings, events: seq<Event>): (t: Transition)
    ensures FixedPageColours(t.effects)
    ensures |events| == 0 ==> t == Transition(s, [])
    decreases |events|
  {
    if |events| == 0 then Transition(s, [])
    else
      var first := Step(s, events[0]);
      var rest := Run(first.settings, events[1..]);
      assert FixedPageColours(first.effects);
      Transition(rest.settings, first.effects + rest.effects)
  }

  /** The sizes a session started from the defaults can reach by clicks: a positive multiple of 4. */
  predicate OnSizeGrid(s: Settings)
  {
    s.fontSize.Int? && s.fontSize.value >= FontStep && s.fontSize.value % FontStep == 0
  }

  /**
   Clicks keep the font size a multiple of 4 and at least 4, and so does a load
   of settings that are; the decrease guard is what keeps the size from 4 down.
   */
  lemma {:induction false} RunKeepsSizeGrid(s: Settings, events: seq<Event>)
    requires OnSizeGrid(s)
    requires forall k :: 0 <= k < |events| && events[k].Loaded? ==> OnSizeGrid(events[k].saved)
    ensures OnSizeGrid(Run(s, events).settings)
    decreases |events|
  {
    if |events| > 0 {
      var next := Step(s, events[0]).settings;
      assert OnSizeGrid(next);
      RunKeepsSizeGrid(next, events[1..]);
    }
  }

  /** From the default 20, any sequence of button clicks keeps the size a positive multiple of 4. */
  lemma ClicksFromDefaults(events: seq<Event>)
    requires forall k :: 0 <= k < |events| ==> !events[k].Loaded?
    ensures OnSizeGrid(Run(Defaults, events).settings)
  {
    RunKeepsSizeGrid(Defaults, events);
  }

  /** One decrease undoes one increase from any size of at least 4, and from NaN. */
  lemma DecreaseUndoesIncrease(s: Settings)
    requires s.fontSize.Int? ==> s.fontSize.value >= FontStep
    ensures Decrease(Increase(s).settings).settings == s
  {
  }

  /** One increase undoes one effective decrease. */
  lemma IncreaseUndoesDecrease(s: Settings)
    requires CanShrink(s.fontSize)
    ensures Increase(Decrease(s).settings).settings == s
  {
  }

  /** The palette text names exactly the two word colours. */
  lemma TextPaletteColours()
    ensures Split(TextPalette, '|') == ["#7D0000", "#00007D"]
  {
    var fields := ["#7D0000", "#00007D"];
    assert TextPalette == Join(fields, '|');
    SplitOfJoin(fields, '|');
  }

  /**
   Whatever a session does, every word the page is recoloured with gets one of
   the popup's two colours.
   */
  lemma SessionWordColours(s: Settings, events: seq<Event>, k: nat, markup: string, pick: Chooser)
    requires k < |Run(s, events).effects| && Run(s, events).effects[k].RecolorPageText?
    ensures ColouredFrom(Segment(markup, Run(s, events).effects[k].palette, pick), ["#7D0000", "#00007D"])
  {
    var effects := Run(s, events).effects;
    assert FixedPageColours(effects);
    assert effects[k].palette == TextPalette;
    TextPaletteColours();
    SegmentColoursAndMarkup(markup, TextPalette, pick);
  }
}
