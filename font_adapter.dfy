/**
 * `FontAdapter`: the rows of the font manager, a list the adapter owns and refills in place.
 */
module FontAdapter {
  import opened Wrappers

  /** A font row: its name and whether it may be deleted (only user fonts may). */
  datatype FontItem = FontItem(name: string, isDeletable: bool)

  /** What `bind` sets on a row: the name, the delete button's visibility and what it reports. */
  datatype BoundFontRow = BoundFontRow(nameText: string, deleteVisible: bool, onDelete: Option<string>)

  function Bind(font: FontItem): (r: BoundFontRow)
    ensures r.nameText == font.name
    ensures r.deleteVisible <==> font.isDeletable
    ensures r.onDelete.Some? <==> r.deleteVisible
    ensures r.onDelete.Some? ==> r.onDelete.value == font.name
  {
    if font.isDeletable then BoundFontRow(font.name, true, Some(font.name))
    else BoundFontRow(font.name, false, None)
  }

  class FontAdapter {
    var fonts: seq<FontItem>

    constructor ()
      ensures fonts == []
    {
      fonts := [];
    }

    /** `getItemCount`. */
    method ItemCount() returns (count: nat)
      ensures count == |fonts|
    {
      count := |fonts|;
    }

    /** `updateData`: the list is cleared, then every new item is appended in order. */
    method UpdateData(newFonts: seq<FontItem>)
      modifies this
      ensures fonts == newFonts
    {
      fonts := [];
      for i := 0 to |newFonts|
        invariant fonts == newFonts[..i]
      {
        fonts := fonts + [newFonts[i]];
      }
    }

    /** `onBindViewHolder`: the row at `position` shows that font. */
    method BindAt(position: nat) returns (row: BoundFontRow)
      requires position < |fonts|
      ensures row == Bind(fonts[position])
      ensures row.deleteVisible <==> fonts[position].isDeletable
    {
      row := Bind(fonts[position]);
    }
  }
}
