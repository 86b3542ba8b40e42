/** The look of the caption burnt into a reel: font colour, background
    colour and font size, chosen by the style the user picks. */
module CaptionStyle {

  datatype Option<T> = None | Some(value: T)

  datatype Caption = Caption(fontColor: string, bgColor: string, fontSize: int)

  /** The caption look of a style that names no override. */
  const Defaults: Caption := Caption("white", "black", 40)

  /** What a named style changes; a field left `None` keeps its default. */
  datatype Override = Override(fontColor: Option<string>, bgColor: Option<string>, fontSize: Option<int>)

  /** The table of named styles. */
  function Overrides(style: string): (o: Override)
    ensures o.fontColor.Some? <==> style == "calm" || style == "bold" || style == "energetic"
    ensures o.fontSize.Some? <==> o.fontColor.Some?
    ensures o.bgColor.Some? <==> style == "bold"
    ensures o.fontSize.Some? ==> 36 <= o.fontSize.value <= 50
  {
    if style == "calm" then Override(Some("lightblue"), None, Some(36))
    else if style == "bold" then Override(Some("yellow"), Some("darkred"), Some(48))
    else if style == "energetic" then Override(Some("lime"), None, Some(50))
    else Override(None, None, None)
  }

  /** The caption look with the fields an override names replaced. */
  function Apply(base: Caption, o: Override): (c: Caption)
    ensures o == Override(None, None, None) ==> c == base
    ensures o.fontColor.None? ==> c.fontColor == base.fontColor
    ensures o.bgColor.None? ==> c.bgColor == base.bgColor
    ensures o.fontSize.None? ==> c.fontSize == base.fontSize
  {
    Caption(
      if o.fontColor.Some? then o.fontColor.value else base.fontColor,
      if o.bgColor.Some? then o.bgColor.value else base.bgColor,
      if o.fontSize.Some? then o.fontSize.value else base.fontSize)
  }

  /** The style parameters of `create_final_video`: start from the defaults
      and let the first matching style reassign the fields it names. */
  method ResolveStyle(style: string) returns (fontColor: string, bgColor: string, fontSize: int)
    ensures Caption(fontColor, bgColor, fontSize) == Apply(Defaults, Overrides(style))
    ensures style == "calm" ==> fontColor == "lightblue" && bgColor == "black" && fontSize == 36
    ensures style == "bold" ==> fontColor == "yellow" && bgColor == "darkred" && fontSize == 48
    ensures style == "energetic" ==> fontColor == "lime" && bgColor == "black" && fontSize == 50
    ensures style != "calm" && style != "bold" && style != "energetic" ==>
              fontColor == "white" && bgColor == "black" && fontSize == 40
    ensures style != "bold" ==> bgColor == "black"
  {
    fontColor := "white"; bgColor := "black"; fontSize := 40;
    if style == "calm" {
      fontColor, fontSize := "lightblue", 36;
    } else if style == "bold" {
      fontColor, bgColor, fontSize := "yellow", "darkred", 48;
    } else if style == "energetic" {
      fontColor, fontSize := "lime", 50;
    }
  }
}
