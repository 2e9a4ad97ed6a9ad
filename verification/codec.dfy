/**
 The per-site settings record and its storage text (`settingsToString` /
 `stringToSettings`): the colour flag, a bar, then the font size.
 */
module Codec {
  import opened Wrappers
  import opened Strings
  import opened Numbers

  /** `{colors_on, font_size}`; the size is NaN when a stored value did not parse. */
  datatype Settings = Settings(colorsOn: bool, fontSize: Number)

  const DefaultFontSize: int := 20

  /** The settings a popup starts with, and what a missing or unreadable entry loads as. */
  const Defaults: Settings := Settings(colorsOn := false, fontSize := Int(DefaultFontSize))

  /** `"" + b` for a boolean. */
  function BoolToString(b: bool): string
  {
    if b then "true" else "false"
  }

  /** `settingsToString`: exactly two bar-separated fields, the flag text first. */
  function Encode(s: Settings): (r: string)
    ensures Split(r, '|') == [BoolToString(s.colorsOn), Format(s.fontSize)]
  {
    var fields := [BoolToString(s.colorsOn), Format(s.fontSize)];
    FormatHasNoBar(s.fontSize);
    SplitOfJoin(fields, '|');
    BoolToString(s.colorsOn) + "|" + Format(s.fontSize)
  }

  /**
   `stringToSettings`: the flag is on exactly when the text before the first bar
   is "true"; the size is `parseInt` of the second field, NaN when there is none.
   */
  function Decode(str: string): (r: Settings)
    ensures r.colorsOn <==> StartsWithTrueField(str)
    ensures '|' !in str ==> r.fontSize == NaN
  {
    var fields := Split(str, '|');
    DecodeFlag(str);
    Settings(fields[0] == "true", if |fields| >= 2 then ParseInt(fields[1]) else NaN)
  }

  /** The text "true" at the start of `str`, ended by the end of `str` or by a bar. */
  predicate StartsWithTrueField(str: string)
  {
    |str| >= 4 && str[..4] == "true" && (|str| == 4 || str[4] == '|')
  }

  lemma DecodeFlag(str: string)
    ensures Split(str, '|')[0] == "true" <==> StartsWithTrueField(str)
    ensures '|' !in str ==> |Split(str, '|')| == 1
  {
    FirstField(str, '|');
    match IndexOf(str, '|')
    case None => FlagFieldWithoutBar(str);
    case Some(i) => FlagFieldBeforeBar(str, i);
  }

  lemma FlagFieldWithoutBar(str: string)
    requires '|' !in str
    ensures str == "true" <==> StartsWithTrueField(str)
  {
    if |str| >= 4 && str[..4] == "true" {
      assert |str| > 4 ==> str[4] != '|';
      assert |str| == 4 ==> str == str[..4];
    }
  }

  lemma FlagFieldBeforeBar(str: string, i: nat)
    requires IndexOf(str, '|') == Some(i)
    ensures str[..i] == "true" <==> StartsWithTrueField(str)
  {
    if str[..i] == "true" {
      assert str[..4] == str[..i];
    }
    if StartsWithTrueField(str) {
      assert str == str[..4] + ['|'] + str[5..];
      IndexOfAfterPrefix(str[..4], '|', str[5..]);
    }
  }

  /**
   Decoding reads the first two fields and ignores any further ones: the flag is
   the first field being "true", the size is `parseInt` of the second.
   */
  lemma DecodeFields(flag: string, size: string, rest: string)
    requires '|' !in flag && '|' !in size
    requires rest == [] || rest[0] == '|'
    ensures Decode(flag + "|" + size + rest) == Settings(flag == "true", ParseInt(size))
  {
    var tail := size + rest;
    assert flag + "|" + size + rest == flag + ['|'] + tail;
    SplitAfterField(flag, '|', tail);
    FieldBeforeRest(size, '|', rest);
  }

  /** `stringToSettings(settingsToString(s))` is `s` for every record, a NaN size included. */
  lemma {:induction false} DecodeEncode(s: Settings)
    ensures Decode(Encode(s)) == s
  {
    var fields := Split(Encode(s), '|');
    assert fields == [BoolToString(s.colorsOn), Format(s.fontSize)];
    ParseIntOfFormat(s.fontSize);
  }

  /** Text that does not decode with the flag on: empty, "1", "True", "false", … */
  lemma FlagNeedsExactTrue(str: string, size: string)
    requires '|' !in str && '|' !in size && str != "true"
    ensures !Decode(str + "|" + size).colorsOn
  {
    DecodeFields(str, size, []);
    assert str + "|" + size + [] == str + "|" + size;
  }
}
