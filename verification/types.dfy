/**
 The board's data: ideas (sticky notes), columns (quadrants plus the permanent
 "unassigned" sidebar column) and the display order of the quadrants, together
 with the two fixed colour palettes.
 */
module Types {

  /** A value that may be missing (an `undefined`/`null` field). */
  datatype Option<+T> = None | Some(value: T)

  /** A sticky note. `color` is one of the `StickyColors` tags. */
  datatype Idea = Idea(id: string, content: string, color: string)

  /** A column: the ordered list of the ideas it holds, by id. */
  datatype Column = Column(id: string, title: string, ideaIds: seq<string>, bgColor: string)

  /** One snapshot of the whole board. Every user action replaces it wholesale. */
  datatype Board = Board(
    ideas: map<string, Idea>,
    columns: map<string, Column>,
    columnOrder: seq<string>)

  /** Key of the sidebar column that is never shown in `columnOrder` and never removed. */
  const Unassigned: string := "unassigned"

  /** The sidebar column as a fresh board creates it. */
  const UnassignedColumn: Column := Column(Unassigned, "UNASSIGNED", [], "bg-gray-50")

  /** Palette a new idea's colour is drawn from. */
  const StickyColors: seq<string> := [
    "bg-yellow-200",
    "bg-blue-200",
    "bg-pink-200",
    "bg-green-200",
    "bg-purple-200",
    "bg-orange-200"
  ]

  /** Palette quadrant backgrounds cycle through. */
  const ColumnBgColors: seq<string> := [
    "bg-blue-50",
    "bg-green-50",
    "bg-orange-50",
    "bg-red-50"
  ]

  /** Background of the quadrant created at position `pos` (0-based): the palette
      entry at `pos` modulo the palette size, at half opacity. */
  function QuadrantBg(pos: nat): (bg: string)
    ensures |bg| > 3 && bg[..|bg| - 3] in ColumnBgColors
    ensures bg[|bg| - 3..] == "/50"
  {
    ColumnBgColors[pos % |ColumnBgColors|] + "/50"
  }
}
