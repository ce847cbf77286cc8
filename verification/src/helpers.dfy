/** The text and status helpers of the research front-end. */
module Helpers {
  /** `truncateText`: the text unchanged when it fits in `maxLength` characters, otherwise
      its first `maxLength` characters and "...". `substring` clamps a negative length to
      zero, so a negative `maxLength` gives just "...". */
  function TruncateText(text: string, maxLength: int): (r: string)
    ensures |text| <= maxLength ==> r == text
    ensures |text| > maxLength >= 0 ==> |r| == maxLength + 3 && r[..maxLength] == text[..maxLength]
    ensures |text| > maxLength ==> |r| >= 3 && r[|r| - 3..] == "..."
    ensures maxLength < 0 ==> r == "..."
  {
    if |text| <= maxLength then text
    else
      var keep := if maxLength < 0 then 0 else maxLength;
      text[..keep] + "..."
  }

  const Green := "bg-green-500 text-white"
  const Yellow := "bg-yellow-500 text-white"
  const Red := "bg-red-500 text-white"
  const Gray := "bg-gray-500 text-white"

  /** `getStatusColor`: the badge classes for a suggestion status. */
  function StatusColor(status: string): (r: string)
    ensures status == "accepted" <==> r == Green
    ensures status == "pending" <==> r == Yellow
    ensures status == "rejected" <==> r == Red
    ensures status !in {"accepted", "pending", "rejected"} <==> r == Gray
  {
    match status
    case "accepted" => Green
    case "pending" => Yellow
    case "rejected" => Red
    case _ => Gray
  }

  const ThinkingFace := "\U{1F914}"
  const TestTube := "\U{1F9EA}"
  const BarChart := "\U{1F4CA}"
  const Memo := "\U{1F4DD}"
  const Clipboard := "\U{1F4CB}"

  /** `getTypeIcon`: one icon per node type, the clipboard for anything else. */
  function TypeIcon(nodeType: string): (r: string)
    ensures nodeType == "hypothesis" <==> r == ThinkingFace
    ensures nodeType == "experiment" <==> r == TestTube
    ensures nodeType == "result" <==> r == BarChart
    ensures nodeType == "analysis" <==> r == Memo
    ensures nodeType !in {"hypothesis", "experiment", "result", "analysis"} <==> r == Clipboard
  {
    match nodeType
    case "hypothesis" => ThinkingFace
    case "experiment" => TestTube
    case "result" => BarChart
    case "analysis" => Memo
    case _ => Clipboard
  }
}
