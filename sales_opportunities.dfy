/** The opportunity kanban (src/components/pages/SalesOpportunities.tsx): one column per
    stage of the pipeline analysis, each holding the opportunities at that stage. */
module SalesOpportunities {

  import opened Wrappers
  import opened CrmTypes
  import opened Seqs

  datatype Column = Column(stage: string, cards: seq<SalesOpportunity>)

  /** "Loading opportunities..." until analytics are available, then the board. */
  datatype KanbanView = LoadingOpportunities | Board(columns: seq<Column>)

  function AtStage(stage: string): SalesOpportunity -> bool {
    (o: SalesOpportunity) => o.stage == stage
  }

  function StageColumn(entry: StageEntry, opportunities: seq<SalesOpportunity>): Column {
    Column(entry.stage, Filter(opportunities, AtStage(entry.stage)))
  }

  function Kanban(analytics: Option<Analytics>, opportunities: seq<SalesOpportunity>): (v: KanbanView)
    ensures v.LoadingOpportunities? <==> analytics.None?
    ensures v.Board? ==>
              var stages := analytics.value.stageDistribution;
              && |v.columns| == |stages|
              && forall i :: 0 <= i < |stages| ==> v.columns[i].stage == stages[i].stage
  {
    match analytics
    case None => LoadingOpportunities
    case Some(a) =>
      Board(seq(|a.stageDistribution|, i requires 0 <= i < |a.stageDistribution| =>
              StageColumn(a.stageDistribution[i], opportunities)))
  }

  /** A column holds exactly the opportunities whose stage is its label, in their order. */
  lemma ColumnCards(analytics: Analytics, opportunities: seq<SalesOpportunity>, i: int)
    requires 0 <= i < |analytics.stageDistribution|
    ensures var column := Kanban(Some(analytics), opportunities).columns[i];
            && (forall o :: o in column.cards <==> o in opportunities && o.stage == column.stage)
            && IsSubsequence(column.cards, opportunities)
  {
    var stage := analytics.stageDistribution[i].stage;
    FilterMembership(opportunities, AtStage(stage));
    FilterIsSubsequence(opportunities, AtStage(stage));
  }

  /** An opportunity whose stage is no column's label is on no column; with distinct
      labels, an opportunity is on at most one column. */
  lemma CardPlacement(analytics: Analytics, opportunities: seq<SalesOpportunity>, o: SalesOpportunity)
    ensures var columns := Kanban(Some(analytics), opportunities).columns;
            (forall i :: 0 <= i < |columns| ==> columns[i].stage != o.stage) ==>
              forall i :: 0 <= i < |columns| ==> o !in columns[i].cards
    ensures var columns := Kanban(Some(analytics), opportunities).columns;
            (forall i, j :: 0 <= i < j < |columns| ==> columns[i].stage != columns[j].stage) ==>
              forall i, j :: 0 <= i < |columns| && 0 <= j < |columns| && o in columns[i].cards && o in columns[j].cards ==> i == j
  {
    var columns := Kanban(Some(analytics), opportunities).columns;
    forall i | 0 <= i < |columns|
      ensures o in columns[i].cards <==> o in opportunities && o.stage == columns[i].stage
    {
      ColumnCards(analytics, opportunities, i);
    }
  }
}
