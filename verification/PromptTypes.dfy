/** The prompt catalog's entities (prompt_engine/__init__.py). */
module PromptTypes {

  datatype Risk = Low | Medium | High

  datatype Prompt = Prompt(promptId: string, subsystem: string, dependencies: seq<string>, risk: Risk)

  datatype Status = Pending | Running | Succeeded | Failed | ReworkRequired

  function Ids(prompts: seq<Prompt>): seq<string> {
    seq(|prompts|, i requires 0 <= i < |prompts| => prompts[i].promptId)
  }

  /** Prompt IDs are unique, as the catalog loader insists. */
  predicate UniqueIds(prompts: seq<Prompt>) {
    forall i, j :: 0 <= i < j < |prompts| ==> prompts[i].promptId != prompts[j].promptId
  }

  /** Two status maps agree on an ID. */
  predicate SameStatus(a: map<string, Status>, b: map<string, Status>, id: string) {
    (id in a <==> id in b) && (id in a ==> a[id] == b[id])
  }
}
