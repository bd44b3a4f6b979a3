/**
 The intents of a request (`internal/biz/rag/intent.go`): what classification answers for each sub-question,
 which the cap, the scope and the graph channel work on.

 IntentNode          a row of the intent tree: its ID, whether it is bound to knowledge bases, and to which
                     collections; `collectionName` is the one name that older rows have instead of a list
 NodeScore           a node with its score
 SubQuestionIntent   a sub-question with its scored nodes

 Other fields of a node are not looked at by what is modelled here.
 */
module Intents {

  datatype IntentNode = IntentNode(id: string, knowledgeBase: bool, collectionName: string,
                                   collectionNames: seq<string>)

  datatype NodeScore = NodeScore(node: IntentNode, score: real)

  datatype SubQuestionIntent = SubQuestionIntent(subQuestion: string, nodeScores: seq<NodeScore>)
}
