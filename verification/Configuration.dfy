/** The project configuration entities of src/causure/onboarding.py. */
module Configuration {
  import opened Vocabulary

  datatype AdapterKind = Replay | Evaluator | CaseGenerator

  datatype Adapter = Adapter(adapterId: string, kind: AdapterKind, entryPoint: string)

  datatype Component = Component(
    componentId: string, component: string, paths: seq<string>, caseFile: string, generator: Option<string>)

  datatype Project = Project(
    projectId: string, policyFile: string, adapterDirectory: string, artifactDirectory: string,
    adapters: seq<Adapter>, retentionDays: int, components: seq<Component>)
}
