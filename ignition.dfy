/**
 * The document assembly of ignite.py (ignite.py:100-142), lifted from module
 * level into a function. The configuration loaded from `config.yml` and the
 * text of `hive.sh` are parameters; the result is the provisioning document
 * that ignite.py would hand to the YAML serialiser, or the error raised while
 * resolving a service.
 */
module Ignition {

  import opened Wrappers
  import opened Values
  import opened Services
  import opened Records
  import Text

  /** The keys of the loaded configuration the assembly reads; `None` is an absent key. */
  datatype Config = Config(services: Option<seq<RawService>>, orchestrator: Option<string>)

  datatype Systemd = Systemd(units: seq<Unit>)

  datatype Storage = Storage(files: seq<File>)

  /** `{systemd: {units}, storage: {files}}`. */
  datatype Document = Document(systemd: Systemd, storage: Storage)

  const Margin := "    "

  /** The lines of the `hive.service` literal (ignite.py:104-117) once
      `.format` has put the orchestrator in place of `{}`. */
  function HiveUnitBody(orchestrator: string): seq<string> {
    HiveUnitHead + [ExecStart + orchestrator] + HiveUnitTail
  }

  const HiveUnitHead: seq<string> :=
    [ "[Unit]",
      // one line of the literal, written as two pieces only so that the
      // verifier can see it holds no line break
      "Description=Create and manage " + "Docker Swarm services",
      "Requires=docker.service",
      "After=docker.service",
      "",
      "[Service]",
      "Type=oneshot" ]

  const ExecStart := "ExecStart=/opt/hive/bin/hive "

  const HiveUnitTail: seq<string> :=
    [ "StandardOutput=journal+console",
      "",
      "[Install]",
      "WantedBy=multi-user.target" ]

  /** The `hive.service` literal as written, each line indented by four spaces. */
  function HiveUnitLiteral(orchestrator: string): string {
    Text.IndentedBlock(Margin, HiveUnitBody(orchestrator))
  }

  /** The lines of the `docker-swarm.conf` literal (ignite.py:122-125). */
  const DockerSwarmBody: seq<string> :=
    [ "[Service]",
      // one line of the literal, in two pieces for the same reason as above
      "ExecStartPost=-/usr/bin/" + "docker swarm init" ]

  const DockerSwarmLiteral: string := Text.IndentedBlock(Margin, DockerSwarmBody)

  /** The module-level code of ignite.py:100-142. */
  function Assemble(config: Config, script: string): (r: Result<Document, Error>)
    ensures var raw := config.services.GetOr([]);
            r.Success? <==> AllSucceed(ResolveService, raw)
    ensures r.Failure? ==> FailsFirstWith(ResolveService, config.services.GetOr([]), r.error)
    ensures r.Success? ==>
              var units := r.value.systemd.units;
              && |units| == 2
              && units[0] == Unit("docker.service", true, None, Some([MakeDropin("docker-swarm.conf", DockerSwarmLiteral)]))
              && units[1] == Unit("hive.service", true,
                                  Some(Text.Cleanup(HiveUnitLiteral(config.orchestrator.GetOr("swarm")))), None)
    ensures r.Success? ==>
              var files, raw := r.value.storage.files, config.services.GetOr([]);
              && |files| == 2
              && files[0].filesystem == "root" && files[0].path == "/opt/hive/etc/services.json" && files[0].mode == 600
              && files[1] == File("root", "/opt/hive/bin/hive", Contents(Data(script)), 700)
              && files[0].contents.inline.Manifest?
              && var manifest := files[0].contents.inline.services;
                 && |manifest| == |raw|
                 && forall i :: 0 <= i < |raw| ==> ResolveService(raw[i]) == Success(manifest[i])
  {
    var services :- MapAll(ResolveService, config.services.GetOr([]));
    var hiveUnit := MakeUnit(
      "hive.service",
      enabled := true,
      contents := HiveUnitLiteral(config.orchestrator.GetOr("swarm")));
    var dockerSwarmDropin := MakeDropin("docker-swarm.conf", DockerSwarmLiteral);
    Success(Document(
      Systemd([
        MakeUnit("docker.service", enabled := true, dropins := [dockerSwarmDropin]),
        hiveUnit
      ]),
      Storage([
        MakeFile("/opt/hive/etc/services.json", mode := 600, contents := Manifest(services)),
        MakeFile("/opt/hive/bin/hive", mode := 700, contents := Data(script))
      ])))
  }

  // ---------------------------------------------------------------------------
  // The unit texts

  /** The drop-in's contents after normalising. */
  lemma DockerSwarmContents()
    ensures Text.Cleanup(DockerSwarmLiteral) == Text.Join(DockerSwarmBody)
    ensures Text.Split(Text.Cleanup(DockerSwarmLiteral)) == DockerSwarmBody
  {
    DockerSwarmBodyWellFormed();
    Text.CleanupIndentedBlock(Margin, DockerSwarmBody);
    Text.SplitJoin(DockerSwarmBody);
  }

  lemma DockerSwarmBodyWellFormed()
    ensures Text.WellFormedBody(Margin, DockerSwarmBody)
  {
    var body := DockerSwarmBody;
    var a, b := "ExecStartPost=-/usr/bin/", "docker swarm init";
    assert '\n' !in a && '\n' !in b && body[1] == a + b;
    assert Text.IsBlankLine(Margin);
    assert '\n' !in body[0] && '\n' !in body[1];
    assert forall i :: 0 <= i < |body| ==> '\n' !in body[i];
    assert forall i :: 0 <= i < |body| ==> body[i] == "" || !Text.IsIndentChar(body[i][0]);
    assert !Text.IsSpace(body[0][0]) && !Text.IsSpace(body[1][|body[1]| - 1]);
  }

  lemma HiveUnitHeadLines()
    ensures forall i :: 0 <= i < |HiveUnitHead| ==> '\n' !in HiveUnitHead[i]
    ensures forall i :: 0 <= i < |HiveUnitHead| ==> HiveUnitHead[i] == "" || !Text.IsIndentChar(HiveUnitHead[i][0])
  {
    HiveUnitDescription();
    HiveUnitHeadTop();
    HiveUnitHeadBottom();
  }

  lemma HiveUnitDescription()
    ensures '\n' !in HiveUnitHead[1]
  {
    var a, b := "Description=Create and manage ", "Docker Swarm services";
    assert '\n' !in a && '\n' !in b;
    assert HiveUnitHead[1] == a + b;
  }

  lemma HiveUnitHeadTop()
    ensures var h := HiveUnitHead; '\n' !in h[0] && '\n' !in h[2] && '\n' !in h[3]
  {
  }

  lemma HiveUnitHeadBottom()
    ensures var h := HiveUnitHead; '\n' !in h[4] && '\n' !in h[5] && '\n' !in h[6]
  {
  }

  lemma HiveUnitTailLines()
    ensures forall i :: 0 <= i < |HiveUnitTail| ==>
              '\n' !in HiveUnitTail[i] && (HiveUnitTail[i] == "" || !Text.IsIndentChar(HiveUnitTail[i][0]))
  {
    var t := HiveUnitTail;
    assert '\n' !in t[0] && '\n' !in t[1] && '\n' !in t[2] && '\n' !in t[3];
  }

  lemma HiveUnitBodyWellFormed(orchestrator: string)
    requires '\n' !in orchestrator
    ensures Text.WellFormedBody(Margin, HiveUnitBody(orchestrator))
  {
    var body := HiveUnitBody(orchestrator);
    var h, t := HiveUnitHead, HiveUnitTail;
    HiveUnitHeadLines();
    HiveUnitTailLines();
    assert '\n' !in ExecStart;
    assert forall i :: 0 <= i < |body| ==>
        body[i] == if i < |h| then h[i] else if i == |h| then ExecStart + orchestrator else t[i - |h| - 1];
    assert Text.IsBlankLine(Margin);
    assert !Text.IsSpace(body[0][0]) && !Text.IsSpace(body[11][|body[11]| - 1]);
  }

  /** The `hive.service` contents after normalising: its lines with the
      indentation removed, the orchestrator at the end of the `ExecStart` line. */
  lemma HiveUnitContents(orchestrator: string)
    requires '\n' !in orchestrator
    ensures Text.Cleanup(HiveUnitLiteral(orchestrator)) == Text.Join(HiveUnitBody(orchestrator))
    ensures var lines := Text.Split(Text.Cleanup(HiveUnitLiteral(orchestrator)));
            |lines| == 12 && lines[7] == ExecStart + orchestrator
  {
    var body := HiveUnitBody(orchestrator);
    HiveUnitBodyWellFormed(orchestrator);
    Text.CleanupIndentedBlock(Margin, body);
    Text.SplitJoin(body);
  }

  /** The assembled document's units, with their texts spelled out. */
  lemma AssembledUnits(config: Config, script: string, doc: Document)
    requires Assemble(config, script) == Success(doc)
    requires '\n' !in config.orchestrator.GetOr("swarm")
    ensures var units, orchestrator := doc.systemd.units, config.orchestrator.GetOr("swarm");
            && units[0].dropins == Some([Dropin("docker-swarm.conf", Text.Join(DockerSwarmBody))])
            && units[1].contents == Some(Text.Join(HiveUnitBody(orchestrator)))
            && var lines := Text.Split(units[1].contents.value);
               |lines| == 12 && lines[7] == ExecStart + orchestrator
  {
    DockerSwarmContents();
    HiveUnitContents(config.orchestrator.GetOr("swarm"));
  }

  // ---------------------------------------------------------------------------
  // Examples

  /** One service with one port compiles to a manifest holding its resolved record. */
  lemma NginxDocument(orchestrator: Option<string>, script: string)
    ensures var raw := RawService(Some(Str("nginx")), Some(Str("nginx")), None,
                                  Some([RawPort(Some(Int(8080)), Some(Int(80)), None)]), None, None, None);
            var r := Assemble(Config(Some([raw]), orchestrator), script);
            && r.Success?
            && r.value.storage.files[0].contents.inline
               == Manifest([Service("nginx", Str("nginx"), Dict(map[]), [Port(8080, 80, Str("tcp"))], [], true, None)])
  {
    var raw := RawService(Some(Str("nginx")), Some(Str("nginx")), None,
                          Some([RawPort(Some(Int(8080)), Some(Int(80)), None)]), None, None, None);
    var service := Service("nginx", Str("nginx"), Dict(map[]), [Port(8080, 80, Str("tcp"))], [], true, None);
    NginxExample();
    assert ResolveService([raw][0]) == Success(service);
    var r := Assemble(Config(Some([raw]), orchestrator), script);
    assert r.Success?;
    var manifest := r.value.storage.files[0].contents.inline.services;
    assert |manifest| == 1 && manifest[0] == service;
    assert manifest == [service];
  }

  /** A service with an empty name stops the whole compilation, after the
      services before it have resolved. */
  lemma EmptyNameDocument(first: RawService, image: string, script: string)
    requires ResolveService(first).Success?
    ensures Assemble(Config(Some([first, Minimal("", image)]), None), script) == Failure(InvalidName(""))
  {
    var raw := [first, Minimal("", image)];
    BadFirstCharacterRefused(image);
    assert ResolveService(raw[0]).Success? && ResolveService(raw[1]) == Failure(InvalidName(""));
    var r := Assemble(Config(Some(raw), None), script);
    assert r.Failure?;
    assert FailsFirstWith(ResolveService, raw, r.error);
  }
}
