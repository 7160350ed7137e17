/** The hashed documents that travel through the pipeline: metric definitions and the content of
    generated artifacts. */
module Documents {
  import opened Options

  datatype Source = Source(catalog: Option<string>, database: string, table: string)

  datatype Window = Window(size: nat, unit: string, timeField: string, timezone: string)

  /** A metric definition (src/airi/metric_ir/models.py). */
  datatype MetricIr = MetricIr(
    schemaVersion: string, name: string, displayName: Option<string>, description: string,
    entityType: Option<string>, entityKey: string, partitionField: Option<string>, source: Source,
    aggregation: string, aggregationField: Option<string>, dimensions: seq<string>, filters: seq<string>,
    window: Option<Window>, sourceAlias: Option<string>, aggregationAlias: Option<string>,
    joins: seq<string>, columnFilters: seq<string>)

  /** What `artifact_content_hash` covers: identity, lifecycle status and timestamps are excluded. */
  datatype Content = Content(
    kind: string, language: string, code: string, template: string, warnings: seq<string>,
    metricName: string, artifactVersion: string)
}
