/** The board's CSV download: the fixed header line, one line per card after it,
    and the file name built from the team id. How a card is written as a line
    is a parameter: only the header's bytes are fixed here. */
module CsvExport {
  import opened Types

  /** The header line, with its carriage-return/line-feed ending. */
  const CsvHeader: string := "Column,Message,Likes,Completed,Assigned To\r\n"

  /** The header is 44 characters long, so a download of it alone is longer than 40
      and ends in CR LF. */
  lemma HeaderShape()
    ensures |CsvHeader| == 44 && |CsvHeader| > 40
    ensures CsvHeader[|CsvHeader| - 2..] == "\r\n"
  {
  }

  /** The name of the downloaded file for team `teamId`. */
  function CsvFileName(teamId: string): (r: string)
    ensures |r| == |teamId| + 10
    ensures r[..|teamId|] == teamId && r[|teamId|..] == "-board.csv"
  {
    teamId + "-board.csv"
  }

  /** The lines of `cards`, one after the other. */
  function Rows(cards: seq<Card>, row: Card -> string): (r: string)
    ensures cards == [] ==> r == []
    ensures cards != [] && row(cards[0]) != [] ==> r != []
  {
    if cards == [] then [] else row(cards[0]) + Rows(cards[1..], row)
  }

  /** The file's contents for a board whose cards are `cards`. */
  function BoardCsv(cards: seq<Card>, row: Card -> string): (r: string)
    ensures |CsvHeader| <= |r| && r[..|CsvHeader|] == CsvHeader
    // an empty board yields exactly the header
    ensures cards == [] ==> r == CsvHeader
    // and, when every card writes a non-empty line, only an empty board does
    ensures (forall c :: row(c) != []) ==> (r == CsvHeader <==> cards == [])
  {
    CsvHeader + Rows(cards, row)
  }
}
