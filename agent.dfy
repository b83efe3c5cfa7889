/** `HiringAgent.analyze_candidate` and `analyze_github_profile`: choosing the
    resume extractor by suffix, scraping the profile bundle, assembling the
    prompt and returning the assessment record.

    The assessor (`self.agent`, an AgentPro instance) is an opaque function
    from prompt to text. The readers of the resume formats and the fetch of
    the profile page are parameters: what a URL gives back is not the model's
    to decide. */
module Agent {
  import opened Outcomes
  import opened PyStr
  import opened Extraction
  import opened Profile

  const PdfSuffix: string := ".pdf"
  const DocxSuffix: string := ".docx"
  const UnsupportedResumeMessage: string :=
    "\U{26A0}\U{FE0F} Unsupported resume format. Please upload a .pdf or .docx file."

  lemma SuffixesExclusive(url: string)
    ensures !(EndsWith(url, PdfSuffix) && EndsWith(url, DocxSuffix))
  {
    assert EndsWith(url, PdfSuffix) ==> url[|url| - 1] == PdfSuffix[3] == 'f';
    assert EndsWith(url, DocxSuffix) ==> url[|url| - 1] == DocxSuffix[4] == 'x';
  }

  /** The resume step of `analyze_candidate`: ".pdf" goes to the PDF extractor,
      otherwise ".docx" to the DOCX extractor, otherwise a fixed warning. No
      URL can end in both, so the order of the two tests does not matter. */
  function ResumeText(url: string, readPdf: string -> Reading<Option<string>>,
                      readDocx: string -> Reading<string>): (r: string)
    ensures EndsWith(url, PdfSuffix) ==> r == ExtractTextFromPdf(url, readPdf)
    ensures EndsWith(url, DocxSuffix) ==> r == ExtractTextFromDocx(url, readDocx)
    ensures !EndsWith(url, PdfSuffix) && !EndsWith(url, DocxSuffix) ==> r == UnsupportedResumeMessage
  {
    SuffixesExclusive(url);
    if EndsWith(url, PdfSuffix) then ExtractTextFromPdf(url, readPdf)
    else if EndsWith(url, DocxSuffix) then ExtractTextFromDocx(url, readDocx)
    else UnsupportedResumeMessage
  }

  /** Only the reader the suffix selects is consulted; an unsupported URL
      consults none, so nothing is fetched for it. */
  lemma ResumeReadsOnlySelectedReader(url: string,
                                      readPdf1: string -> Reading<Option<string>>, readDocx1: string -> Reading<string>,
                                      readPdf2: string -> Reading<Option<string>>, readDocx2: string -> Reading<string>)
    ensures !EndsWith(url, DocxSuffix) && readPdf1 == readPdf2 ==>
      ResumeText(url, readPdf1, readDocx1) == ResumeText(url, readPdf2, readDocx2)
    ensures !EndsWith(url, PdfSuffix) && readDocx1 == readDocx2 ==>
      ResumeText(url, readPdf1, readDocx1) == ResumeText(url, readPdf2, readDocx2)
    ensures !EndsWith(url, PdfSuffix) && !EndsWith(url, DocxSuffix) ==>
      ResumeText(url, readPdf1, readDocx1) == ResumeText(url, readPdf2, readDocx2)
  {
  }

  /** Suffix matching is case-sensitive: an upper-case ".PDF" is not supported. */
  lemma UpperCaseSuffixUnsupported(base: string, readPdf: string -> Reading<Option<string>>,
                                   readDocx: string -> Reading<string>)
    ensures ResumeText(base + ".PDF", readPdf, readDocx) == UnsupportedResumeMessage
  {
  }

  /** The repository names as the prompt shows them, a Python list literal. */
  function ListRepr(names: seq<string>): string
  {
    "[" + Join(", ", seq(|names|, i requires 0 <= i < |names| => "'" + names[i] + "'")) + "]"
  }

  /** The names of the listed repositories, in order. */
  function RepositoryNames(repos: seq<Repository>): seq<string>
  {
    seq(|repos|, i requires 0 <= i < |repos| => repos[i].name)
  }

  const PromptHead: string :=
    "\n        Analyze this candidate profile and provide a detailed assessment:\n\n" +
    "        \U{1F4C4} Resume Content:\n        "
  const NameLabel: string :=
    "\n\n        \U{1F468}\U{200D}\U{1F4BB} GitHub Profile:\n        Name: "
  const BioLabel: string := "\n        Bio: "
  const RepositoriesLabel: string := "\n        Top Repositories: "
  const JobLabel: string := "\n\n        \U{1F4DD} Job Description:\n        "
  const CompanyLabel: string := "\n\n        \U{1F3E2} Company Information:\n        "
  const PromptAsks: string :=
    "\n\n        Please provide:\n" +
    "        1. Skills and experience match with job requirements\n" +
    "        2. Technical proficiency assessment\n" +
    "        3. Cultural fit analysis\n" +
    "        4. Strengths and areas for development\n" +
    "        5. Final hiring recommendation\n        "

  /** The literal parts and the fields of the prompt f-string of
      `analyze_candidate`, in order. */
  function PromptPieces(resumeText: string, profile: ProfileBundle, jobDescription: string,
                        companyInfo: string): seq<string>
  {
    [PromptHead, resumeText,
     NameLabel, profile.name,
     BioLabel, profile.bio,
     RepositoriesLabel, ListRepr(RepositoryNames(profile.repositories)),
     JobLabel, jobDescription,
     CompanyLabel, companyInfo,
     PromptAsks]
  }

  /** The prompt f-string of `analyze_candidate`. */
  function BuildPrompt(resumeText: string, profile: ProfileBundle, jobDescription: string,
                       companyInfo: string): string
  {
    Join("", PromptPieces(resumeText, profile, jobDescription, companyInfo))
  }

  /** The prompt carries the resume text, the name, the bio, the job
      description and the company information verbatim: nothing is truncated. */
  lemma PromptEmbedsInputs(resumeText: string, profile: ProfileBundle, jobDescription: string,
                           companyInfo: string)
    ensures Contains(BuildPrompt(resumeText, profile, jobDescription, companyInfo), resumeText)
    ensures Contains(BuildPrompt(resumeText, profile, jobDescription, companyInfo), profile.name)
    ensures Contains(BuildPrompt(resumeText, profile, jobDescription, companyInfo), profile.bio)
    ensures Contains(BuildPrompt(resumeText, profile, jobDescription, companyInfo), jobDescription)
    ensures Contains(BuildPrompt(resumeText, profile, jobDescription, companyInfo), companyInfo)
  {
    var pieces := PromptPieces(resumeText, profile, jobDescription, companyInfo);
    var _ := JoinHasPart("", pieces, 1);
    var _ := JoinHasPart("", pieces, 3);
    var _ := JoinHasPart("", pieces, 5);
    var _ := JoinHasPart("", pieces, 9);
    var _ := JoinHasPart("", pieces, 11);
  }

  /** Every name occurs in the list literal that shows it. */
  lemma ListReprHasName(names: seq<string>, i: int) returns (o: nat)
    requires 0 <= i < |names|
    ensures OccursAt(ListRepr(names), names[i], o)
  {
    var name := names[i];
    var quoted := seq(|names|, k requires 0 <= k < |names| => "'" + names[k] + "'");
    var q := Join(", ", quoted);
    var oq := JoinHasPart(", ", quoted, i);
    OccursInContext("'", name, "'", name, 0) by {
      assert name[0..|name|] == name;
    }
    assert OccursAt(quoted[i], name, 1);
    OccursWithin(q, quoted[i], name, oq, 1);
    OccursInContext("[", q, "]", name, oq + 1);
    o := 1 + oq + 1;
  }

  /** The prompt names every listed repository (their URLs are not shown). */
  lemma PromptListsRepositoryNames(resumeText: string, profile: ProfileBundle, jobDescription: string,
                                   companyInfo: string, i: int)
    requires 0 <= i < |profile.repositories|
    ensures Contains(BuildPrompt(resumeText, profile, jobDescription, companyInfo), profile.repositories[i].name)
  {
    var pieces := PromptPieces(resumeText, profile, jobDescription, companyInfo);
    var p := BuildPrompt(resumeText, profile, jobDescription, companyInfo);
    var o1 := JoinHasPart("", pieces, 7);
    var o2 := ListReprHasName(RepositoryNames(profile.repositories), i);
    OccursWithin(p, pieces[7], profile.repositories[i].name, o1, o2);
    ContainsIff(p, profile.repositories[i].name, o1 + o2);
  }

  /** The record `analyze_candidate` returns. */
  datatype AssessmentResult = AssessmentResult(resumeAnalysis: string, githubAnalysis: ProfileBundle,
                                               assessment: string)

  class HiringAgent {
    /** `self.agent`: the assessor the prompt is sent to, set once. */
    const agent: string -> string

    constructor(agent: string -> string)
      ensures this.agent == agent
    {
      this.agent := agent;
    }

    /** `analyze_github_profile`: fetch the page (a failure propagates), then
        collect name, bio and the first five repository links. */
    method AnalyzeGithubProfile(githubUrl: string, fetchPage: string -> Result<ProfilePage>)
      returns (r: Result<ProfileBundle>)
      ensures fetchPage(githubUrl).Err? ==> r == Err(fetchPage(githubUrl).message)
      ensures fetchPage(githubUrl).Ok? ==>
        (r.Err? <==> HrefMissing(fetchPage(githubUrl).value)) &&
        (r.Err? ==> r.message == MissingHrefMessage) &&
        (r.Ok? ==> IsBundleOf(fetchPage(githubUrl).value, r.value))
    {
      var fetched := fetchPage(githubUrl);
      if fetched.Err? {
        return Err(fetched.message);
      }
      var page := fetched.value;
      var anchors := page.repositoryAnchors[..Considered(page)];
      var repos: seq<Repository> := [];
      var i := 0;
      while i < |anchors|
        invariant 0 <= i <= |anchors|
        invariant |repos| == i
        invariant forall k :: 0 <= k < i ==>
          anchors[k].href.Some? &&
          repos[k] == Repository(Strip(anchors[k].text), GithubOrigin + anchors[k].href.value)
      {
        var anchor := anchors[i];
        if anchor.href.None? {
          assert page.repositoryAnchors[i] == anchor;
          return Err(MissingHrefMessage);
        }
        repos := repos + [Repository(Strip(anchor.text), GithubOrigin + anchor.href.value)];
        i := i + 1;
      }
      r := Ok(ProfileBundle(TextOrEmpty(page.nameElement), TextOrEmpty(page.bioElement), repos));
    }

    /** `analyze_candidate`: the resume text, the profile bundle, and the
        assessor's answer to the prompt built from them. */
    method AnalyzeCandidate(resumeUrl: string, githubUrl: string, jobDescription: string,
                            companyInfo: string,
                            readPdf: string -> Reading<Option<string>>,
                            readDocx: string -> Reading<string>,
                            fetchPage: string -> Result<ProfilePage>)
      returns (r: Result<AssessmentResult>)
      ensures fetchPage(githubUrl).Err? ==> r == Err(fetchPage(githubUrl).message)
      ensures fetchPage(githubUrl).Ok? ==>
        (r.Err? <==> HrefMissing(fetchPage(githubUrl).value)) &&
        (r.Err? ==> r.message == MissingHrefMessage)
      ensures r.Ok? ==>
        fetchPage(githubUrl).Ok? &&
        IsBundleOf(fetchPage(githubUrl).value, r.value.githubAnalysis) &&
        r.value.resumeAnalysis == ResumeText(resumeUrl, readPdf, readDocx) &&
        r.value.assessment ==
          agent(BuildPrompt(r.value.resumeAnalysis, r.value.githubAnalysis, jobDescription, companyInfo))
    {
      var resumeText := ResumeText(resumeUrl, readPdf, readDocx);
      var githubData := AnalyzeGithubProfile(githubUrl, fetchPage);
      if githubData.Err? {
        return Err(githubData.message);
      }
      var prompt := BuildPrompt(resumeText, githubData.value, jobDescription, companyInfo);
      var assessment := agent(prompt);
      r := Ok(AssessmentResult(resumeText, githubData.value, assessment));
    }
  }
}
