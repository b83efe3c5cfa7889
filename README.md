# Hiring assistant: candidate-profile normalisation, modelled in Dafny

This project models the candidate-profile pipeline of the AgentPro hiring
assistant (`agent.py`). `HiringAgent.analyze_candidate` takes a resume URL, a
GitHub profile URL, a job description and company information. It works in
these steps:

- It picks a text extractor by the resume URL's suffix: `.pdf`, then `.docx`,
  otherwise a fixed "unsupported format" warning.
- The extractor rewrites Google Drive share links to direct-download links
  (`convert_drive_url`). It then fetches and parses the document and joins
  the page or paragraph texts with newlines. An empty join becomes a
  "no text" marker. Any exception becomes an `⚠️ Error reading …` string.
- It scrapes the profile page for the name, the bio and the first five
  repository links (`analyze_github_profile`). Failures here are not caught.
- It builds one prompt from all of this and asks the assessor. It returns
  the resume text, the profile bundle and the assessment.

Modules, one per component:

- `outcomes.dfy` (`Outcomes`): `Option`, and `Result`, a call that returns a
  value or raises an exception with a message.
- `pystr.dfy` (`PyStr`): the Python `str` operations the code uses: `in`/`find`,
  `split`, `join`, `strip` (with Python's Unicode whitespace) and `endswith`.
- `drive_url.dfy` (`DriveUrl`): `convert_drive_url`. Its `IndexError` is an
  explicit `Err` outcome.
- `extraction.dfy` (`Extraction`): the PDF and DOCX extractors. Each one is
  `DocumentText` (join, marker, error prefix) applied to `Load` (convert the
  URL, then fetch and parse it). `Load` asks an abstract reader, which maps a
  URL to the parsed items or to a raised message.
- `profile.dfy` (`Profile`): the profile page as the results of its DOM
  queries, the bundle, and the predicate `IsBundleOf` that says which bundle a
  page yields.
- `agent.dfy` (`Agent`): the resume dispatch, the prompt template, and class
  `HiringAgent`. The class holds the assessor (`self.agent`), the
  repository-collecting loop and the result record.

`convert_drive_url` raises `IndexError` for a URL that contains
"drive.google.com" and "view" but not "/d/": `url.split("/d/")[1]` has no
piece 1. The model makes this an explicit `Err`. Inside an extractor it
becomes `⚠️ Error reading PDF: list index out of range` (or the DOCX form).

## Model

| member | source | states |
|---|---|---|
| `PyStr.Find` | agent.py:12 | `find` reports the leftmost occurrence of the needle, or none when it occurs nowhere |
| `PyStr.ContainsIff` | agent.py:12 | `in` holds exactly when some occurrence exists; the leftmost one is what `find` returns |
| `PyStr.Split` | agent.py:13 | `split` gives at least one piece; joining the pieces with the separator gives the input back; no piece contains the separator; there are two or more pieces exactly when the separator occurs |
| `PyStr.SplitHead` | agent.py:13 | piece 0 of a split is the text before the leftmost separator, and the other pieces are the split of the text after it |
| `PyStr.SplitJoin` | agent.py:29 | splitting a newline join of newline-free pieces gives the pieces back |
| `PyStr.JoinCount` | agent.py:29 | joining n pieces with a one-character separator yields at least n-1 copies of that character |
| `PyStr.NoCharNoCount` | agent.py:30 | a text without the character holds no copy of it, which is why the newline-free marker is never a multi-page join |
| `PyStr.JoinOfEmpties` | agent.py:29 | joining n >= 1 empty texts with a one-character separator gives exactly n-1 copies of it |
| `PyStr.JoinEmptyIff` | agent.py:30 | a join is empty exactly when there are no pieces, or one empty piece |
| `PyStr.JoinHasPart` | agent.py:90 | every piece of a join occurs in the joined text |
| `PyStr.LeadingSpaces` | agent.py:57 | the counted prefix is all whitespace, and the character after it is not |
| `PyStr.TrailingSpaces` | agent.py:57 | the counted suffix is all whitespace, and the character before it is not |
| `PyStr.StripWindow` | agent.py:57 | `strip()` returns the unique window whose outside is whitespace and whose ends are not |
| `PyStr.StripHasWindow` | agent.py:57 | such a window exists for every string, and `strip()` returns it |
| `PyStr.StripProperties` | agent.py:57 | a stripped string has no whitespace at either end, and stripping twice changes nothing |
| `DriveUrl.ConvertDriveUrl` | agent.py:11-15 | a URL without both "drive.google.com" and "view" comes back unchanged; the conversion fails exactly for a share link without "/d/", with `list index out of range` |
| `DriveUrl.FirstSlashPiece` | agent.py:13 | `x.split("/")[0]` is the text before the first "/" of `x` |
| `DriveUrl.IdPiece` | agent.py:13 | cutting at the first "/d/" and then at the first "/" leaves the text before the first "/" |
| `DriveUrl.ConvertExtractsId` | agent.py:12-14 | a share link converts to the download prefix plus the text after its first "/d/" up to the next "/" (or the end); that ID has no "/" and may be empty |
| `DriveUrl.ShareLinkConverts` | agent.py:11-14 | a link `<pre>/d/<ID>/<post>` with no earlier "/d/" converts to the direct-download URL of exactly `<ID>` |
| `Extraction.Load` | agent.py:25-28 | the reader is asked for the URL itself when it is not a share link, for the converted URL when conversion succeeds, and not at all when conversion raises |
| `Extraction.DocumentText` | agent.py:29-44 | a raised failure becomes the error prefix plus its message; a parsed document becomes its newline-joined texts, or the no-text marker exactly when the document has no items or one empty item |
| `Extraction.ExtractTextFromPdf` | agent.py:22-32 | the same, for PDF pages with a missing text read as "" and the PDF marker and prefix |
| `Extraction.ParagraphsAreTexts` | agent.py:41 | the texts joined for a DOCX document are its paragraph texts, unchanged and in order (no `or ""` fallback) |
| `Extraction.ExtractTextFromDocx` | agent.py:34-44 | the same, for DOCX paragraphs with the DOCX marker and prefix |
| `Extraction.ConversionFailureReported` | agent.py:24-44 | a share link without "/d/" yields `⚠️ Error reading PDF: list index out of range` (DOCX likewise) |
| `Extraction.MultiItemText` | agent.py:29-42 | n >= 2 items give at least n-1 newlines, and so never the no-text marker |
| `Extraction.BlankPagesGiveNewlines` | agent.py:29-30 | a PDF of n >= 2 pages without text extracts to n-1 newlines, not the marker |
| `Extraction.ItemsRecoverable` | agent.py:29-42 | when no item text holds a newline, the extracted text splits back into exactly the item texts, in order |
| `Profile.BundleUnique` | agent.py:61-65 | a page yields at most one bundle |
| `Profile.BundleExists` | agent.py:51-65 | a page whose first five repository links all have an `href` yields a bundle |
| `Profile.BundleFieldsTrimmed` | agent.py:57-63 | name, bio and repository names are already stripped; every repository URL starts with `https://github.com` |
| `Profile.RepositoryCount` | agent.py:55 | up to five links are all listed, with no padding; with more, exactly five are |
| `Agent.SuffixesExclusive` | agent.py:71-74 | no URL ends with both ".pdf" and ".docx" |
| `Agent.ResumeText` | agent.py:71-76 | ".pdf" selects the PDF extractor, ".docx" the DOCX extractor, anything else the fixed unsupported-format string |
| `Agent.ResumeReadsOnlySelectedReader` | agent.py:71-76 | only the selected reader affects the resume text; an unsupported URL consults no reader, so nothing is fetched |
| `Agent.UpperCaseSuffixUnsupported` | agent.py:71-76 | suffixes are case-sensitive: a URL ending ".PDF" is unsupported |
| `Agent.PromptEmbedsInputs` | agent.py:81-104 | the prompt contains the resume text, name, bio, job description and company information verbatim |
| `Agent.ListReprHasName` | agent.py:90 | every repository name occurs in the list literal the prompt shows |
| `Agent.PromptListsRepositoryNames` | agent.py:87-90 | the prompt contains every listed repository's name |
| `Agent.HiringAgent.constructor` | agent.py:19-20 | the agent keeps the assessor it is given |
| `Agent.HiringAgent.AnalyzeGithubProfile` | agent.py:46-65 | a failed page fetch propagates its message; a missing `href` among the first five links raises `'href'`, and only then; otherwise the result is the page's bundle: the stripped name and bio or "", and the first min(5, n) links in order, each as stripped text and `https://github.com` + href |
| `Agent.HiringAgent.AnalyzeCandidate` | agent.py:67-112 | fails exactly when profile scraping fails, with the same message; otherwise it returns the dispatched resume text, the page's bundle, and the assessor's answer to the prompt built from that same resume text and bundle |

## Left out

- HTTP fetching (`requests.get`, agent.py:26, 38, 48) is network I/O. A
  reader (for the documents) or a page fetch (for the profile) stands in for
  it; its result is a parameter. The model therefore does not capture the
  order of the fetches or the time they take.
- PDF and DOCX parsing (PyPDF2 and python-docx) are foreign libraries. A
  document is the sequence of its page texts (`Option<string>`, because
  `extract_text()` may give `None`) or paragraph texts (`string`; `p.text` is
  always a string, and line 41 has no `or ""`). An exception raised while a
  page's text is extracted is part of the reader's `Raised` outcome.
- BeautifulSoup querying (agent.py:49-55) is a foreign library. A page is the
  text of the first `span.p-name` and `div.p-note` (if any) plus the
  repository anchors in document order, each with its text and optional
  `href`. How `.text` gathers the text of nested elements is not modelled.
- The AgentPro assessor (agent.py:20, 106) is an opaque service. It is a
  total function from prompt to text that the agent is built with. A failure
  inside it, which would propagate in the source, is not modelled. The tools
  it is configured with are not modelled either.
- `Agent.ListRepr` stands in for Python's `repr` of the list of repository
  names (agent.py:90) as `['a', 'b']`, without `repr`'s quote choice and
  escaping. It matches Python for names without quotes, backslashes or
  unprintable characters, which covers all GitHub repository names.
- `app.py` is the Gradio user interface and its launch. Its
  `Error analyzing candidate: …` wrapper catches what `AnalyzeCandidate`
  reports as `Err`. It is not part of this model.
