/** The declared keys and defaults of the four collections' schemas. */
module Schemas {
  import opened Documents

  const ArticleKeys: set<string> :=
    {"title", "author", "reference", "source", "type", "contentPath", "thumbnail",
     "description", "matchId", "approvalStatus", "filters", "status", "isHighlight",
     "isDraft", "imageData", "publishedAt", "timezone", "tags", "seoRoute", "seoTags",
     "seoDescription", "seoKeywords"}

  const ArticleDefaults: Patch :=
    map["type" := VStr("news"), "approvalStatus" := VStr("pending"), "status" := Active,
        "isHighlight" := VBool(false), "isDraft" := VBool(false)]

  const TagKeys: set<string> := {"name", "status", "articles"}
  const TagDefaults: Patch := map["status" := Active]

  const UserKeys: set<string> := {"email", "password", "salt", "verificationToken", "status"}
  const UserDefaults: Patch := map["status" := Active]

  const StatisticsKeys: set<string> := {"statistics", "key"}
  const StatisticsDefaults: Patch := map[]
}
