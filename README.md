# PGDAS text extraction, modelled in Dafny

The backend of the PGDAS dashboard reads the plain text of a Brazilian Simples
Nacional declaration (PGDAS-D) and turns it into a record. The record holds:

- five header fields:
  - the CNPJ of the head office;
  - the company name;
  - the assessment period;
  - the gross revenue of the last twelve months (RBT12);
  - the gross revenue of the calendar year (RBA);
- two monthly revenue tables, one for the domestic market and one for the foreign market.

This project models that extraction engine, `extractDataFromPdfText` and `extractMonthlyRevenues` in
`backend-mysql/utils/pdfParser.js`, and proves what it does. It works on strings; nothing is read from disk.

The legacy server `backend-mysql/server_old.js` carries a copy of both functions (lines 65-107 and 111-178). Only comments differ, plus two unused `{}` locals at lines 135-136. The model therefore covers both copies at once.

Modules, one per file:

- `Wrappers` (`wrappers.dfy`): the `Option` type.
- `JsText` (`js_text.dfy`): the JavaScript primitives the code relies on:
  - `\s` as the exact ECMAScript WhiteSpace and LineTerminator set;
  - `\d` as the ASCII digits;
  - `trim`;
  - `indexOf`, returning -1 when the text is absent;
  - `substring`, which clamps both bounds and swaps them when they are out of order.
- `BrNumber` (`br_number.dfy`): the amount pattern `\d{1,3}(?:\.\d{3})*(?:,\d{1,2})?` and its conversion to a number:
  - the pattern is a leftmost, greedy scanner, so `"1234,56"` yields `"123"`;
  - the conversion removes every dot, turns the first comma into a point, then applies `parseFloat`;
  - numbers are exact decimals (`real`), with NaN kept as a separate case.
- `MonthlyRevenues` (`monthly_revenues.dfy`): `extractMonthlyRevenues`.
  - The exec loop and the for loop are Dafny methods.
  - They are proved equal to a specification function, `RevenuesOf`.
  - The returned object is a key sequence plus a map, so it keeps JavaScript's insertion order.
- `HeaderFields` (`header_fields.dfy`): the five header patterns, as scanners that include the backtracking of `\s*`.
- `RevenueBlock` (`revenue_block.dfy`):
  - the lazy block pattern;
  - the normalisation chain: drop quotes, replace line breaks, collapse whitespace, trim;
  - the split into markets with `indexOf` and `substring`.
- `PdfParser` (`pdf_parser.dfy`): the record and `extractDataFromPdfText`.

Where a reader might expect otherwise, the model follows the code:

- No code extracts the tax table: the IRPJ, CSLL, COFINS, PIS/PASEP, INSS/CPP, ICMS, IPI and ISS fields, and the total due. These exist only as database columns. They are not modelled.
- The two revenue totals are not defaulted to 0. The field is absent when its label does not match. When the label matches but the captured `[0-9.,]+` run does not parse, it is NaN, for example a lone `","` (see `HeaderFields.TotalCanBeNaN`).
- The code's revenue-block anchors are literal:
  - the block must start with `2.2) Receitas Brutas Anteriores (R$)`;
  - the market markers must read `2.2.1) Mercado Interno` and `2.2.2) Mercado Externo`.

  Text that lacks them, such as a bare "Mercado Interno", yields two empty maps.
- In `extractMonthlyRevenues` the `isNaN` guard never rejects a value. A matched amount always starts with a digit, so `parseFloat` gives a number (`MonthlyRevenues.SegmentAmount`). The model keeps the guard: `Assign` skips NaN writes.
- The end marker inside the block, `2.3) Folha de Salarios Anteriores`, is spelled without the accent. It is looked for only inside the text already cut before the accented anchor, so it is normally absent.

## Model

| member | source | states |
|---|---|---|
| JsText.Trim | backend-mysql/utils/pdfParser.js:20 | `trim` leaves no whitespace at either end |
| JsText.TrimDropsOnlySpaces | backend-mysql/utils/pdfParser.js:20 | what `trim` removes is whitespace, and only at the two ends |
| JsText.TrimOfTrimmed | backend-mysql/utils/pdfParser.js:70 | `trim` changes nothing in text that has no whitespace at either end |
| JsText.TrimOfSpacePrefix | backend-mysql/utils/pdfParser.js:50 | leading whitespace makes no difference to `trim` |
| JsText.TrimCharacterised | backend-mysql/utils/pdfParser.js:20 | `trim` keeps exactly the part between a whitespace prefix and a whitespace suffix |
| JsText.IndexOf | backend-mysql/utils/pdfParser.js:76-78 | -1 exactly when the marker occurs nowhere; otherwise its first occurrence |
| JsText.IndexOfFrom | backend-mysql/utils/pdfParser.js:76-78 | the first occurrence at or after a position, or -1 when there is none |
| JsText.Substring | backend-mysql/utils/pdfParser.js:20 | `substring` on in-range bounds in either order is the slice between them; bounds past the end stop at the end, bounds below 0 at 0, both at once giving the whole text |
| JsText.SubstringIsSymmetric | backend-mysql/utils/pdfParser.js:88 | `substring` gives the same text with its two bounds swapped |
| BrNumber.FirstAmount | backend-mysql/utils/pdfParser.js:23-24 | the value pattern matches exactly when the segment holds a digit |
| BrNumber.LeadEnd | backend-mysql/utils/pdfParser.js:23 | `\d{1,3}` takes up to three digits, stopping early only at a non-digit |
| BrNumber.GroupsEnd | backend-mysql/utils/pdfParser.js:23 | `(?:\.\d{3})*` takes consecutive dot-and-three-digits groups, a whole number of them, and stops only where no further group follows |
| BrNumber.DecimalEnd | backend-mysql/utils/pdfParser.js:23 | `(?:,\d{1,2})?` takes a comma with one or two digits when present, otherwise nothing |
| BrNumber.FirstDigitFrom | backend-mysql/utils/pdfParser.js:24 | the leftmost match starts at the first digit |
| BrNumber.FirstAmountIsGreedyFromTheLeft | backend-mysql/utils/pdfParser.js:23-24 | `"1234,56"` gives `"123"`, `"R$ 900 / 12"` gives `"900"`, text without digits gives no match |
| BrNumber.RemoveDots | backend-mysql/utils/pdfParser.js:29 | `replace(/\./g, '')` leaves no dot and never lengthens the text |
| BrNumber.RemoveDotsAppend | backend-mysql/utils/pdfParser.js:29 | dot removal works piece by piece |
| BrNumber.RemoveDotsKeepsDotless | backend-mysql/utils/pdfParser.js:29 | text without dots is unchanged by dot removal |
| BrNumber.ReplaceFirstComma | backend-mysql/utils/pdfParser.js:29 | `replace(',', '.')` keeps the length |
| BrNumber.ReplaceFirstCommaSkips | backend-mysql/utils/pdfParser.js:29 | `replace(',', '.')` leaves a comma-free prefix alone and acts on what follows |
| BrNumber.ReplaceFirstCommaAtComma | backend-mysql/utils/pdfParser.js:29 | `replace(',', '.')` turns the first comma into a point and keeps every later character, later commas included |
| BrNumber.Cleaned | backend-mysql/utils/pdfParser.js:29 | the clean-up never lengthens the text, keeps a `[0-9.,]` capture within `[0-9.,]`, and leaves text without dots and commas unchanged |
| BrNumber.ParseFloat | backend-mysql/utils/pdfParser.js:29 | `parseFloat` is never negative here, and is NaN exactly when the text starts with neither a digit nor a point and a digit |
| BrNumber.ParseFloatInteger | backend-mysql/utils/pdfParser.js:29 | a digit string parses to the integer it denotes |
| BrNumber.ParseFloatDecimal | backend-mysql/utils/pdfParser.js:29 | digits, a point and digits parse to the integer part plus the fraction |
| BrNumber.ParseFloatOfPrefix | backend-mysql/utils/pdfParser.js:29 | `parseFloat` reads the longest decimal literal in front (digits, a point, digits, with at least one digit) and ignores the text after it |
| BrNumber.ParseFloatOfIntegerPrefix | backend-mysql/utils/pdfParser.js:29 | digits followed by a comma parse to the digits' integer, the comma and what follows being ignored |
| BrNumber.DigitsValueAppend | backend-mysql/utils/pdfParser.js:29 | the value of concatenated digit strings shifts the first by the length of the second |
| BrNumber.GroupsDropDots | backend-mysql/utils/pdfParser.js:29 | dropping the dots of thousands groups multiplies by 1000 per group |
| BrNumber.CleanedAmount | backend-mysql/utils/pdfParser.js:23-29 | a matched amount cleans to its digits without the group dots, followed by its decimal part, and denotes the grouped value |
| BrNumber.CommaDecimalParses | backend-mysql/utils/pdfParser.js:29 | digits, a comma and digits clean and parse to the integer part plus the fraction |
| BrNumber.AmountParses | backend-mysql/utils/pdfParser.js:27-30 | a matched amount converts to its Brazilian reading and never to NaN |
| BrNumber.ThousandsAmountExample | backend-mysql/server_old.js:91 | `"32.326,75"` converts to 32326.75 |
| BrNumber.ZeroAmountExample | backend-mysql/server_old.js:91 | `"0,00"` converts to 0 |
| BrNumber.IntegerAmountExample | backend-mysql/server_old.js:90 | `"900"` converts to 900 |
| MonthlyRevenues.ExecPeriod | backend-mysql/utils/pdfParser.js:6-9 | `exec` finds the leftmost `\d{2}\/\d{4}` at or after `lastIndex` |
| MonthlyRevenues.ScanCons | backend-mysql/utils/pdfParser.js:8-10 | a token found by `exec`, with no token before it, followed by the scan after it, is the scan |
| MonthlyRevenues.PeriodsFromIsScan | backend-mysql/utils/pdfParser.js:6-11 | the collected tokens are exactly the non-overlapping left-to-right matches |
| MonthlyRevenues.Periods | backend-mysql/utils/pdfParser.js:6-11 | the `dates` array holds tokens of the text, each with its own text and index, in increasing index order |
| MonthlyRevenues.PeriodsAreSorted | backend-mysql/utils/pdfParser.js:13 | the token indices increase by at least the token length (7) from one to the next, so the sort changes nothing |
| MonthlyRevenues.NoTokenNoPeriods | backend-mysql/utils/pdfParser.js:6-11 | text without a token yields no dates |
| MonthlyRevenues.CollectPeriods | backend-mysql/utils/pdfParser.js:7-11 | the exec loop collects the scan's tokens |
| MonthlyRevenues.Revenues.Put | backend-mysql/utils/pdfParser.js:33 | writing a key appends it if new and otherwise keeps its position; only its value changes |
| MonthlyRevenues.Assign | backend-mysql/utils/pdfParser.js:15-35 | the writes build a well-formed object whose keys come from the written dates |
| MonthlyRevenues.FirstIndex | backend-mysql/utils/pdfParser.js:15-34 | the position of a date's first write |
| MonthlyRevenues.LastIndex | backend-mysql/utils/pdfParser.js:15-34 | the position of a date's last write |
| MonthlyRevenues.AssignKeys | backend-mysql/utils/pdfParser.js:32-34 | without NaN, every written date is a key, and only those |
| MonthlyRevenues.AssignOrder | backend-mysql/utils/pdfParser.js:15-34 | keys are ordered by first write |
| MonthlyRevenues.AssignValues | backend-mysql/utils/pdfParser.js:15-34 | each key holds its last write |
| MonthlyRevenues.SegmentAmount | backend-mysql/utils/pdfParser.js:22-30 | a segment's value is never NaN and never negative; it is 0 without a digit, otherwise the first amount's Brazilian reading |
| MonthlyRevenues.Segment | backend-mysql/utils/pdfParser.js:17-20 | a segment is trimmed, and is the trimmed text between the end of its token and the next token (or the end) |
| MonthlyRevenues.SegmentIsBetweenTokens | backend-mysql/utils/pdfParser.js:17-20 | a segment is the trimmed text strictly between its token and the next one (or the end) |
| MonthlyRevenues.RevenuesOf | backend-mysql/utils/pdfParser.js:4-37 | the returned object is well formed (distinct keys, exactly the keys of the map) and its keys are among the dates written |
| MonthlyRevenues.RevenuesAreLastWriteWins | backend-mysql/utils/pdfParser.js:15-36 | every token becomes a key, keys keep first-seen order, values are the last occurrence's amount |
| MonthlyRevenues.KeyIffToken | backend-mysql/utils/pdfParser.js:9-34 | a period is a key exactly when it is a token of the section |
| MonthlyRevenues.EntriesAreTokens | backend-mysql/utils/pdfParser.js:9-10 | the dates written are the token texts, in text order |
| MonthlyRevenues.NoTokenNoRevenues | backend-mysql/utils/pdfParser.js:5-36 | empty content, or content without a token, gives an empty object |
| MonthlyRevenues.SegmentText | backend-mysql/utils/pdfParser.js:16-20 | the loop body's segment is the trimmed text between its token and the next one (or the end) |
| MonthlyRevenues.SegmentValue | backend-mysql/utils/pdfParser.js:23-30 | the loop body's value is the segment's amount: the first match, cleaned and parsed, or 0 |
| MonthlyRevenues.WriteRevenues | backend-mysql/utils/pdfParser.js:15-35 | the for loop performs the writes of the specification |
| MonthlyRevenues.ExtractMonthlyRevenues | backend-mysql/utils/pdfParser.js:4-37 | the method returns the specified, well-formed object (the copy in `server_old.js:65-107` is the same code) |
| HeaderFields.ClassStart | backend-mysql/utils/pdfParser.js:43-45 | `\s*` gives back whitespace until `[C]+` can start, at the last class character it passed |
| HeaderFields.CaptureAt | backend-mysql/utils/pdfParser.js:43-45 | at a label, the capture is the longest class run from the last class character within the following whitespace run, and there is none exactly when no class character lies there |
| HeaderFields.MatchesAtIff | backend-mysql/utils/pdfParser.js:43-45 | a label matches exactly when a class character follows it past whitespace only |
| HeaderFields.FirstMatchFrom | backend-mysql/utils/pdfParser.js:49-55 | `match` uses the leftmost label occurrence at which the whole pattern matches |
| HeaderFields.LabelCapture | backend-mysql/utils/pdfParser.js:49-55 | there is no capture exactly when the pattern matches nowhere; otherwise it is the non-empty class run captured at the leftmost match |
| HeaderFields.TrimmedCapture | backend-mysql/utils/pdfParser.js:50-56 | a field is set exactly when its pattern matches, and it is the trimmed capture of the leftmost match |
| HeaderFields.Cnpj | backend-mysql/utils/pdfParser.js:43-50 | `cnpj` is trimmed and holds only digits, `.`, `-`, `/` and inner whitespace |
| HeaderFields.CnpjMatchesAtIff | backend-mysql/utils/pdfParser.js:43 | the CNPJ label matches exactly when a CNPJ character follows it directly |
| HeaderFields.RunEndSkips | backend-mysql/utils/pdfParser.js:43 | a class run passes over any in-class stretch |
| HeaderFields.CnpjRunAfterSpaces | backend-mysql/utils/pdfParser.js:43-50 | when a CNPJ character follows the whitespace, the capture starts there and trims to the run from the label |
| HeaderFields.CnpjRunOfOneSpace | backend-mysql/utils/pdfParser.js:43-50 | otherwise `\s*` gives back one space, and the field is "" |
| HeaderFields.CnpjIsTrimmedRun | backend-mysql/utils/pdfParser.js:43-50 | `cnpj` is the trimmed longest CNPJ-character run right after the label |
| HeaderFields.CnpjIsLeftmostTrimmedRun | backend-mysql/utils/pdfParser.js:43-50 | `cnpj` is set exactly when a label is followed by a CNPJ character, and it is the trimmed longest CNPJ-character run after the leftmost such label |
| HeaderFields.NomeEmpresarial | backend-mysql/utils/pdfParser.js:44-53 | `nomeEmpresarial` is trimmed and contains no line break |
| HeaderFields.PeriodoApuracao | backend-mysql/utils/pdfParser.js:45-56 | `periodoApuracao` is trimmed and contains no line break |
| HeaderFields.LineCaptureIsRestOfLine | backend-mysql/utils/pdfParser.js:44-45 | after the label's whitespace (line breaks included), the capture is the rest of that line |
| HeaderFields.LineCaptureOfBlankTail | backend-mysql/utils/pdfParser.js:44-56 | with only whitespace after the label, the pattern may match but the field is "" |
| HeaderFields.LineCaptureTrimsToRestOfLine | backend-mysql/utils/pdfParser.js:44-56 | at a match, the trimmed capture is the trimmed rest of the line that starts after the label's whitespace |
| HeaderFields.NomeEmpresarialIsRestOfLine | backend-mysql/utils/pdfParser.js:44-53 | `nomeEmpresarial` is the trimmed rest of the line after the whitespace that follows the leftmost matching label |
| HeaderFields.PeriodoApuracaoIsRestOfLine | backend-mysql/utils/pdfParser.js:45-56 | `periodoApuracao` is the trimmed rest of the line after the whitespace that follows the leftmost matching label |
| HeaderFields.TotalCaptureAt | backend-mysql/utils/pdfParser.js:46-47 | a total's capture is a non-empty `[0-9.,]` run, taken where the label, whitespace, the suffix, whitespace and a maximal number run follow one another |
| HeaderFields.TotalMatchIsUnique | backend-mysql/utils/pdfParser.js:46-47 | any such arrangement of label, whitespace, suffix, whitespace and number run is a match, and its number run is the capture |
| HeaderFields.ShorterSpaceRunsFail | backend-mysql/utils/pdfParser.js:46-47 | giving back whitespace to either `\s+` cannot produce a match |
| HeaderFields.FirstTotalFrom | backend-mysql/utils/pdfParser.js:58-62 | `match` uses the leftmost position where the two-part label and a number match |
| HeaderFields.Total | backend-mysql/utils/pdfParser.js:58-62 | a total is set exactly when its labels match, and is never negative |
| HeaderFields.ReceitaBrutaAcumulada | backend-mysql/utils/pdfParser.js:58-59 | `receitaBrutaAcumulada` is set exactly when the RBT12 label, suffix and a number occur, and is never negative |
| HeaderFields.ReceitaBrutaAno | backend-mysql/utils/pdfParser.js:61-62 | `receitaBrutaAno` is set exactly when the RBA label, suffix and a number occur, and is never negative |
| HeaderFields.TotalOfBrazilianAmount | backend-mysql/utils/pdfParser.js:59 | a total written in the Brazilian format reads as that amount |
| HeaderFields.TotalCanBeNaN | backend-mysql/utils/pdfParser.js:59-62 | captures `","` and `"..."` parse to NaN |
| RevenueBlock.BlockStartAt | backend-mysql/utils/pdfParser.js:65 | where the opening anchor `2.2)`, optional whitespace and the title occur at a position, the capture starts right after the title; otherwise the pattern cannot start there |
| RevenueBlock.BlockStartIsUnique | backend-mysql/utils/pdfParser.js:65 | the title can only follow the opening number after its whole whitespace run |
| RevenueBlock.FirstBlockEndFrom | backend-mysql/utils/pdfParser.js:65 | the lazy capture stops at the first closing anchor |
| RevenueBlock.FindBlockFrom | backend-mysql/utils/pdfParser.js:65-66 | the block comes from the leftmost opening anchor that is followed by a closing anchor |
| RevenueBlock.RawBlock | backend-mysql/utils/pdfParser.js:65-67 | the block is "" when the closing anchor, the `2.2)` number or the `Receitas Brutas Anteriores (R$)` title is missing |
| RevenueBlock.RawBlockIsLazy | backend-mysql/utils/pdfParser.js:65-67 | the block is the text up to the first closing anchor, and contains none before it |
| RevenueBlock.StripQuotes | backend-mysql/utils/pdfParser.js:70 | no `"` or `'` remains |
| RevenueBlock.ReplaceLineBreaks | backend-mysql/utils/pdfParser.js:70 | no `\r` or `\n` remains; every other character was in the input or is a space |
| RevenueBlock.CollapseSpaces | backend-mysql/utils/pdfParser.js:70 | whitespace is only single spaces, never two adjacent |
| RevenueBlock.ReplacementsCollapse | backend-mysql/utils/pdfParser.js:70 | after the three replacements there are no quotes, no line breaks and no whitespace runs |
| RevenueBlock.TrimKeepsCollapsed | backend-mysql/utils/pdfParser.js:70 | trimming keeps text free of quotes, line breaks and whitespace runs |
| RevenueBlock.Normalize | backend-mysql/utils/pdfParser.js:70 | the result has no quotes, no line breaks and no whitespace runs, and is trimmed |
| RevenueBlock.StripQuotesOfQuoteless | backend-mysql/utils/pdfParser.js:70 | text without quotes is unchanged by quote removal |
| RevenueBlock.ReplaceLineBreaksOfUnbroken | backend-mysql/utils/pdfParser.js:70 | text without line breaks is unchanged by line-break replacement |
| RevenueBlock.ReplaceLineBreaksOfBreak | backend-mysql/utils/pdfParser.js:70 | a line break (`\r\n`, `\n` or `\r`) becomes exactly one space |
| RevenueBlock.CollapseSpacesOfCollapsed | backend-mysql/utils/pdfParser.js:70 | text with single spaces only is unchanged by whitespace collapsing |
| RevenueBlock.NormalizeOfNormalized | backend-mysql/utils/pdfParser.js:70 | normalised text is left as it is |
| RevenueBlock.NormalizeIsIdempotent | backend-mysql/utils/pdfParser.js:70 | normalising twice is normalising once |
| RevenueBlock.StripQuotesKeepsVisible | backend-mysql/utils/pdfParser.js:70 | removing quotes keeps every character that is neither whitespace nor a quote, in order |
| RevenueBlock.ReplaceLineBreaksKeepsVisible | backend-mysql/utils/pdfParser.js:70 | replacing line breaks keeps every character that is neither whitespace nor a quote, in order |
| RevenueBlock.CollapseSpacesKeepsVisible | backend-mysql/utils/pdfParser.js:70 | collapsing whitespace keeps every character that is neither whitespace nor a quote, in order |
| RevenueBlock.TrimKeepsVisible | backend-mysql/utils/pdfParser.js:70 | trimming keeps every character that is neither whitespace nor a quote, in order |
| RevenueBlock.NormalizeKeepsVisible | backend-mysql/utils/pdfParser.js:70 | normalisation changes only whitespace and quotes: every other character of the block survives, in order |
| RevenueBlock.StripQuotesAppend | backend-mysql/utils/pdfParser.js:70 | quote removal works piece by piece |
| RevenueBlock.ReplaceLineBreaksAppend | backend-mysql/utils/pdfParser.js:70 | line-break replacement works piece by piece, unless the cut splits a `\r\n` |
| RevenueBlock.CollapseSpacesAppend | backend-mysql/utils/pdfParser.js:70 | whitespace collapsing works piece by piece, unless the cut splits a whitespace run |
| RevenueBlock.BlockText | backend-mysql/server_old.js:139-145 | the block is normalised, and "" unless the block pattern matches |
| RevenueBlock.InternalContent | backend-mysql/utils/pdfParser.js:80-89 | the domestic part is trimmed, and "" when its marker is absent |
| RevenueBlock.ExternalContent | backend-mysql/utils/pdfParser.js:91-94 | the foreign part is trimmed, and "" when its marker is absent |
| RevenueBlock.InternalContentBetweenMarkers | backend-mysql/utils/pdfParser.js:84-88 | markers in order: the domestic part is the text between them |
| RevenueBlock.InternalContentToEnd | backend-mysql/server_old.js:162-166 | without the later markers, the domestic part runs to the end of the block |
| RevenueBlock.InternalContentWhenMarkersSwapped | backend-mysql/utils/pdfParser.js:88 | the foreign marker first: `substring` swaps, giving the text from the foreign marker to the end of the domestic marker |
| RevenueBlock.ExternalContentToEnd | backend-mysql/server_old.js:169-171 | without the next-section marker, the foreign part runs to the end of the block |
| RevenueBlock.ExternalContentUpToNextSection | backend-mysql/utils/pdfParser.js:91-93 | with the next-section marker after it, the foreign part is the text between the two |
| RevenueBlock.InternalContentUpToNextSection | backend-mysql/utils/pdfParser.js:83-88 | without the foreign marker, the domestic part is the text between its marker and the next-section marker |
| PdfParser.ExtractDataFromPdfText | backend-mysql/utils/pdfParser.js:40-100 | both maps are always present and well formed, and both are empty when the block pattern does not match (the copy in `server_old.js:111-178` is the same code) |
| PdfParser.HeaderFieldsSetIffMatched | backend-mysql/utils/pdfParser.js:43-62 | each of the five header fields is set exactly when its pattern matches somewhere in the text |
| PdfParser.MarketsAreIndependent | backend-mysql/server_old.js:174-175 | each map's keys are exactly the tokens of its own part of the block |
| PdfParser.NoCnpjLabelNotSavable | backend-mysql/services/PgdasReportService.js:14 | text without the CNPJ label never passes the check made before saving |

## Left out

- Express routes, multer uploads, PDF decoding by pdf-parse, file reads and unlinks (`server.js`, `server_old.js` outside the two functions). These are I/O around the engine.
- The MySQL DAO, the pool and table set-up (`dao/PgdasReportDAO.js`, `config/db.js`), and the asynchronous orchestration in `services/PgdasReportService.js`. Only its pre-save check is stated, as `PdfParser.IsSavable`.
- Tax-table extraction. No code for it exists; the fields are only database columns.
- IEEE-754 doubles. Amounts are exact decimals, so rounding of long fractions and precision loss past 2^53 are not modelled. `parseFloat` is modelled only on the `[0-9.,]` strings the code gives it.
- UTF-16. Strings are sequences of Unicode scalar values, while JavaScript indexes UTF-16 code units. Positions differ only after characters outside the Basic Multilingual Plane, and the tokens and markers searched for contain none.
- MonthlyRevenues.ExtractMonthlyRevenues: the call to `dates.sort` is not executed. `PeriodsAreSorted` proves the array is already strictly ordered by index, so the sort leaves it unchanged.
- MonthlyRevenues.ExtractMonthlyRevenues: JavaScript orders integer-like object keys before the others. Period keys such as "01/2023" are never integer-like, so plain insertion order is modelled.
- BrNumber.ReplaceFirstComma: its own contract states only that the length is kept. What it does to the text is stated by two lemmas: `ReplaceFirstCommaSkips` (a comma-free prefix is kept) and `ReplaceFirstCommaAtComma` (the first comma becomes a point and the rest is kept). Together they fix the result on every input.
- RevenueBlock.StripQuotes, RevenueBlock.ReplaceLineBreaks, RevenueBlock.CollapseSpaces: their own contracts state what each step removes. What each keeps is stated by the `KeepsVisible` and `Append` lemmas beside them, together with the `Of...` lemmas: text the step leaves alone, and, for line breaks, `ReplaceLineBreaksOfBreak` (each break becomes one space).
- HeaderFields.Cnpj: the contract states the form of the value, not that it is a valid CNPJ. The code does not check one.
