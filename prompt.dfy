/**
  The prompt `handle_request` sends to the model: a literal three-section
  template (system instruction, output format, user content) into which the
  two template texts and the request content are spliced verbatim.
 */
module PromptTemplate {
  import opened Outcomes
  import opened PyText

  /** The fixed line opening the output-format section: answer in JSON of
      the given form only, with no explanation, no headings, no Markdown. */
  const FormatInstruction: string := "ให้คุณตอบกลับมาเป็น JSON ตามรูปแบบนี้เท่านั้น ไม่มีคำอธิบาย ไม่มีหัวข้อ ไม่มี Markdown"

  /** The fixed line opening the user section: analyse the following
      conversation into the given form. */
  const UserInstruction: string := "วิเคราะห์ข้อมูลบทสนทนาต่อไปนี้ ให้อยู่ในรูปแบบที่กำหนด"

  const SystemHeader: string := "\n#SYSTEM\n"
  const FormatHeader: string := "\n\n#OUTPUT FORMAT\n" + FormatInstruction + "\n"
  const UserHeader: string := "\n\n#USER\n" + UserInstruction + "\n"

  /** The f-string of `handle_request`, filled in. Each input sits verbatim
      in its section: the prompt reads back into exactly the three texts it
      was built from. */
  function BuildPrompt(systemPrompt: string, aiPrompt: string, content: string): (r: string)
    ensures SplitPrompt(r, |systemPrompt|, |aiPrompt|) == Some((systemPrompt, aiPrompt, content))
  {
    SplitSectionsOf(SystemHeader, FormatHeader, UserHeader, systemPrompt, aiPrompt, content);
    SystemHeader + systemPrompt + FormatHeader + aiPrompt + UserHeader + content + "\n"
  }

  /** Reads a prompt back into its three inserted texts, given the lengths of
      the first two (the texts themselves may contain the headers). */
  function SplitPrompt(prompt: string, systemLength: nat, aiLength: nat): Option<(string, string, string)> {
    SplitSections(prompt, SystemHeader, FormatHeader, UserHeader, systemLength, aiLength)
  }

  /** The first `n` characters of `t`, and what follows the header `h`
      right after them. */
  function TakeSection(t: string, n: nat, h: string): Option<(string, string)> {
    if |t| < n then None
    else
      var rest :- AfterPrefix(t[n..], h);
      Some((t[..n], rest))
  }

  lemma TakeSectionOf(x: string, h: string, rest: string)
    ensures TakeSection(x + (h + rest), |x|, h) == Some((x, rest))
  {
    var t := x + (h + rest);
    assert t[..|x|] == x && t[|x|..] == h + rest;
    AfterPrefixOf(h, rest);
  }

  function SplitSections(prompt: string, h1: string, h2: string, h3: string, n1: nat, n2: nat)
    : Option<(string, string, string)>
  {
    var a :- AfterPrefix(prompt, h1);
    var first :- TakeSection(a, n1, h2);
    var second :- TakeSection(first.1, n2, h3);
    var c := second.1;
    if c == [] || c[|c| - 1] != '\n' then None
    else Some((first.0, second.0, c[..|c| - 1]))
  }

  lemma SplitSectionsOf(h1: string, h2: string, h3: string, x: string, y: string, z: string)
    ensures SplitSections(h1 + x + h2 + y + h3 + z + "\n", h1, h2, h3, |x|, |y|) == Some((x, y, z))
  {
    var c := z + "\n";
    var b := y + (h3 + c);
    var a := x + (h2 + b);
    assert h1 + x + h2 + y + h3 + z + "\n" == h1 + a;
    AfterPrefixOf(h1, a);
    TakeSectionOf(x, h2, b);
    TakeSectionOf(y, h3, c);
    assert c[..|c| - 1] == z;
  }
}
